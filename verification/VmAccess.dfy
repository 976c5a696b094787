/**
  Array.set with a literal index below zero (module/classicvm/classicvm.h:344-352, with
  CALL_asm of src/vm/asm.c:650-684): the classic code generator emits code for the array and
  the value, then sees the index and gives up, and the general one emits them again. The
  second time the value is compiled from the tree that the first time left.
 */
module VmAccess {

  import opened Options
  import opened VmCode
  import opened VmCompile
  import opened VmMachine

  const K_CALLDELTA: int := 4

  /** Registers of a stack slot: the object of slot i. */
  function OC(i: int): Reg { 2 * i }

  /** The value operand: an expression itself, or a call of a method with it as the argument, on
      the object in slot self. The call is one instruction of the machine. */
  datatype Callee = Direct | Method(tag: nat, self: int)

  /** Where the expression is left when the operand is compiled at a slot. */
  function ArgSlot(c: Callee, slot: int): int {
    if c.Direct? then slot else slot + K_CALLDELTA + 1
  }

  /** The code of the operand, up to the call, and the call. */
  function ArgCode(c: Callee, e: Expr, slot: int, shift: int): seq<Op> {
    (if c.Direct? then [] else [NMOV(OC(slot + K_CALLDELTA), OC(c.self))])
      + Compile(e, ArgSlot(c, slot), shift, ArgSlot(c, slot))
  }

  function CallOp(c: Callee): seq<Op> {
    if c.Direct? then [] else [Other(c.tag)]
  }

  /** What the classic code generator has emitted when it gives up. */
  function FirstPart(c: Callee, arr: int, e: Expr, shift: int, esp: int): seq<Op> {
    [NMOV(OC(esp + 1), OC(arr))] + ArgCode(c, e, esp + 3, shift)
  }

  /** What the general one then emits, up to the call of the value operand. */
  function SecondPart(c: Callee, arr: int, n: Word, e: Expr, shift: int, esp: int): seq<Op> {
    Operands(c, arr, n, SwapTree(e), shift, esp)
  }

  function Operands(c: Callee, arr: int, n: Word, e: Expr, shift: int, esp: int): seq<Op> {
    [NMOV(OC(esp + 4), OC(arr)), NSET(NC(esp + 5), n)] + ArgCode(c, e, esp + 6, shift)
  }

  /** All the code, with the call of set at the end. */
  function SetCode(c: Callee, arr: int, n: Word, e: Expr, shift: int, esp: int, tag: nat): seq<Op> {
    FirstPart(c, arr, e, shift, esp) + CallOp(c) + SecondPart(c, arr, n, e, shift, esp) + CallOp(c) + [Other(tag)]
  }

  /** Array and receiver are in slots up to the stack index. */
  predicate InSlots(c: Callee, arr: int, esp: int) {
    arr <= esp && (c.Method? ==> c.self <= esp)
  }

  /** In t, the receiver of a call compiled at a slot is the object that r has for it. */
  ghost predicate InPlace(c: Callee, r: Regs, t: Regs, slot: int) {
    c.Method? ==> t[OC(slot + K_CALLDELTA)] == r[OC(c.self)]
  }

  // ---------------------------------------------------------------- in place

  /** EXPR_asm of the value operand. */
  method OperandAsm(bb: BasicBlock, c: Callee, e: KExpr, slot: int, shift: int)
    requires e.Valid()
    modifies bb, e.repr
    ensures e.Valid() && e.Tree() == SwapTree(old(e.Tree()))
    ensures bb.ops == old(bb.ops) + ArgCode(c, old(e.Tree()), slot, shift) + CallOp(c)
  {
    if c.Direct? {
      ExprAsm(bb, slot, e, shift, slot);
    } else {
      var thisidx := slot + K_CALLDELTA;
      bb.Add(NMOV(OC(thisidx), OC(c.self)));
      ExprAsm(bb, thisidx + 1, e, shift, thisidx + 1);
      bb.Add(Other(c.tag));
    }
  }

  /** CLASSICVM_CALL_asm of set, up to the test of the index: exactly a literal below zero is
      refused. */
  method ClassicSetAsm(bb: BasicBlock, arr: int, index: KExpr, c: Callee, value: KExpr, shift: int, esp: int)
    returns (refused: bool)
    requires value.Valid()
    modifies bb, value.repr
    ensures refused <==> index.build == TNConst && index.ndata < 0
    ensures value.Valid() && value.Tree() == SwapTree(old(value.Tree()))
    ensures bb.ops == old(bb.ops) + FirstPart(c, arr, old(value.Tree()), shift, esp) + CallOp(c)
  {
    var a := esp + 1;
    var v := esp + 3;
    bb.Add(NMOV(OC(a), OC(arr)));
    OperandAsm(bb, c, value, v, shift);
    refused := false;
    if index.build == TNConst {
      var n := index.ndata;
      if n < 0 { refused := true; }
    }
  }

  /** CALL_asm of set: what was refused is compiled again, operand by operand. */
  method SetAsm(bb: BasicBlock, arr: int, index: KExpr, c: Callee, value: KExpr, shift: int, esp: int, tag: nat)
    requires value.Valid() && index.build == TNConst && index.ndata < 0
    modifies bb, value.repr
    ensures value.Valid() && value.Tree() == SwapTree(SwapTree(old(value.Tree())))
    ensures bb.ops == old(bb.ops) + SetCode(c, arr, index.ndata, old(value.Tree()), shift, esp, tag)
  {
    ghost var pre, e := bb.ops, value.Tree();
    var refused := ClassicSetAsm(bb, arr, index, c, value, shift, esp);
    if refused {
      OperandsAsm(bb, arr, index, c, value, shift, esp);
      bb.Add(Other(tag));
    }
    Joined(pre, FirstPart(c, arr, e, shift, esp), CallOp(c),
      SecondPart(c, arr, index.ndata, e, shift, esp), [Other(tag)]);
  }

  lemma Joined<T>(pre: seq<T>, first: seq<T>, call: seq<T>, second: seq<T>, last: seq<T>)
    ensures pre + first + call + second + call + last == pre + (first + call + second + call + last)
  {
  }

  /** The loop over the operands. */
  method OperandsAsm(bb: BasicBlock, arr: int, index: KExpr, c: Callee, value: KExpr, shift: int, esp: int)
    requires value.Valid() && index.build == TNConst
    modifies bb, value.repr
    ensures value.Valid() && value.Tree() == SwapTree(old(value.Tree()))
    ensures bb.ops == old(bb.ops) + Operands(c, arr, index.ndata, old(value.Tree()), shift, esp) + CallOp(c)
  {
    var thisidx := esp + K_CALLDELTA;
    bb.Add(NMOV(OC(thisidx), OC(arr)));
    bb.Add(NSET(NC(thisidx + 1), index.ndata));
    OperandAsm(bb, c, value, thisidx + 2, shift);
  }

  // ---------------------------------------------------------------- what the code does

  /** From u, execution ended in t: with v in register r, all below c as it was, or in a trap if
      there is no v. */
  ghost predicate Ready<U>(m: Machine<U>, u: State<U>, t: Option<State<U>>, c: Reg, r: Reg, v: Option<Value>) {
    && (t.None? <==> v.None?)
    && (t.Some? && v.Some? ==>
      && Holds(m, t.value.regs[r], v.value)
      && SameBelow(u.regs, t.value.regs, c) && t.value.world == u.world)
  }

  lemma WrittenAbove(r: Regs, a: Reg, w: Word, c: Reg)
    requires c <= a
    ensures SameBelow(r, Write(r, a, w), c) && Write(r, a, w)[a] == w
  {
  }

  lemma SameFurther(r: Regs, r': Regs, r'': Regs, c: Reg, c': Reg)
    requires SameBelow(r, r', c) && SameBelow(r', r'', c') && c <= c'
    ensures SameBelow(r, r'', c)
  {
  }

  lemma ReadyFurther<U>(m: Machine<U>, u: State<U>, w: State<U>, t: Option<State<U>>, c: Reg, c': Reg, r: Reg,
      v: Option<Value>)
    requires SameBelow(u.regs, w.regs, c) && w.world == u.world && c <= c' && Ready(m, w, t, c', r, v)
    ensures Ready(m, u, t, c, r, v)
  {
    if t.Some? { SameFurther(u.regs, w.regs, t.value.regs, c, c'); }
  }

  lemma {:induction false} MoveFirst<U>(m: Machine<U>, a: Reg, b: Reg, code: seq<Op>, u: State<U>)
    ensures Run(Steps(m), [NMOV(a, b)] + code, Some(u))
      == Run(Steps(m), code, Some(State(Write(u.regs, a, u.regs[b]), u.world)))
  {
    RunAppend(Steps(m), [NMOV(a, b)], code, Some(u));
    StepMove(m, a, b, u);
  }

  lemma {:induction false} SetFirst<U>(m: Machine<U>, a: Reg, n: Word, code: seq<Op>, u: State<U>)
    ensures Run(Steps(m), [NSET(a, n)] + code, Some(u))
      == Run(Steps(m), code, Some(State(Write(u.regs, a, n), u.world)))
  {
    RunAppend(Steps(m), [NSET(a, n)], code, Some(u));
    StepSet(m, a, n, u);
  }

  lemma {:induction false} CompiledAt<U>(m: Machine<U>, e: Expr, slot: int, shift: int, u: State<U>)
    requires Lawful(m) && WellTyped(e) && Below(e, shift, slot) && NoZeroDivisor(e)
    ensures Ready(m, u, Run(Steps(m), Compile(e, slot, shift, slot), Some(u)), NC(slot), NC(slot),
      Eval(m, e, shift, u.regs))
  {
    CompileSource(m, e, shift, slot, u);
  }

  /** The code of an expression, on registers that agree with r below the stack index esp. */
  lemma {:induction false} CompiledReady<U>(m: Machine<U>, e: Expr, slot: int, shift: int, esp: int, r: Regs,
      u: State<U>)
    requires Lawful(m) && WellTyped(e) && Below(e, shift, esp) && NoZeroDivisor(e) && esp <= slot
    requires SameBelow(r, u.regs, NC(esp))
    ensures Ready(m, u, Run(Steps(m), Compile(e, slot, shift, slot), Some(u)), NC(slot), NC(slot), Eval(m, e, shift, r))
  {
    BelowMore(e, shift, esp, slot);
    CompiledAt(m, e, slot, shift, u);
    EvalFrame(m, e, shift, esp, r, u.regs);
  }

  lemma {:induction false} DirectReady<U>(m: Machine<U>, e: Expr, slot: int, shift: int, esp: int, r: Regs, u: State<U>)
    requires Lawful(m) && WellTyped(e) && Below(e, shift, esp) && NoZeroDivisor(e) && esp < slot
    requires SameBelow(r, u.regs, NC(esp))
    ensures Ready(m, u, Run(Steps(m), Compile(e, slot, shift, slot), Some(u)), OC(slot), NC(slot), Eval(m, e, shift, r))
  {
    CompiledReady(m, e, slot, shift, esp, r, u);
    ReadyFurther(m, u, u, Run(Steps(m), Compile(e, slot, shift, slot), Some(u)), OC(slot), NC(slot), NC(slot),
      Eval(m, e, shift, r));
  }

  lemma {:induction false} SelfReady<U>(m: Machine<U>, c: Callee, e: Expr, slot: int, shift: int, esp: int, r: Regs,
      u: State<U>)
    requires Lawful(m) && WellTyped(e) && Below(e, shift, esp) && NoZeroDivisor(e) && esp < slot
    requires SameBelow(r, u.regs, NC(esp))
    requires c.Method?
    ensures Ready(m, u, Run(Steps(m), ArgCode(c, e, slot, shift), Some(u)), OC(slot), NC(ArgSlot(c, slot)),
      Eval(m, e, shift, r))
  {
    var a, b, to := OC(slot + K_CALLDELTA), OC(c.self), ArgSlot(c, slot);
    var w := State(Write(u.regs, a, u.regs[b]), u.world);
    MoveFirst(m, a, b, Compile(e, to, shift, to), u);
    WrittenAbove(u.regs, a, u.regs[b], OC(slot));
    SameFurther(r, u.regs, w.regs, NC(esp), OC(slot));
    CompiledReady(m, e, to, shift, esp, r, w);
    ReadyFurther(m, u, w, Run(Steps(m), Compile(e, to, shift, to), Some(w)), OC(slot), NC(to), NC(to),
      Eval(m, e, shift, r));
  }

  /** Up to the call, the receiver is in its place. */
  lemma {:induction false} ReceiverReady<U>(m: Machine<U>, c: Callee, e: Expr, slot: int, shift: int, esp: int, r: Regs,
      u: State<U>)
    requires Lawful(m) && WellTyped(e) && Below(e, shift, esp) && NoZeroDivisor(e) && esp < slot
    requires SameBelow(r, u.regs, NC(esp)) && c.Method?
    ensures var t := Run(Steps(m), ArgCode(c, e, slot, shift), Some(u));
      t.Some? ==> InPlace(c, u.regs, t.value.regs, slot)
  {
    var a, b, to := OC(slot + K_CALLDELTA), OC(c.self), ArgSlot(c, slot);
    var w := State(Write(u.regs, a, u.regs[b]), u.world);
    MoveFirst(m, a, b, Compile(e, to, shift, to), u);
    WrittenAbove(u.regs, a, u.regs[b], OC(slot));
    SameFurther(r, u.regs, w.regs, NC(esp), OC(slot));
    CompiledReady(m, e, to, shift, esp, r, w);
  }

  lemma {:induction false} DirectCode(e: Expr, slot: int, shift: int)
    ensures ArgCode(Direct, e, slot, shift) == Compile(e, slot, shift, slot)
  {
  }

  /** The operand up to the call, run from w, which is u but for what was written from register
      below on. */
  lemma {:induction false} OperandReady<U>(m: Machine<U>, c: Callee, e: Expr, slot: int, shift: int, esp: int,
      below: Reg, r: Regs,
      u: State<U>, w: State<U>)
    requires Lawful(m) && WellTyped(e) && Below(e, shift, esp) && NoZeroDivisor(e) && esp < slot
    requires SameBelow(r, u.regs, NC(esp)) && SameBelow(u.regs, w.regs, below) && w.world == u.world
    requires NC(esp) <= below <= OC(slot)
    ensures Ready(m, u, Run(Steps(m), ArgCode(c, e, slot, shift), Some(w)), below, NC(ArgSlot(c, slot)),
      Eval(m, e, shift, r))
  {
    SameFurther(r, u.regs, w.regs, NC(esp), below);
    if c.Method? {
      var t := Run(Steps(m), ArgCode(c, e, slot, shift), Some(w));
      SelfReady(m, c, e, slot, shift, esp, r, w);
      ReadyFurther(m, u, w, t, below, OC(slot), NC(ArgSlot(c, slot)), Eval(m, e, shift, r));
    } else {
      var t := Run(Steps(m), Compile(e, slot, shift, slot), Some(w));
      DirectCode(e, slot, shift);
      DirectReady(m, e, slot, shift, esp, r, w);
      ReadyFurther(m, u, w, t, below, OC(slot), NC(slot), Eval(m, e, shift, r));
    }
  }

  /** The first time, the value of the source tree is ready; */
  lemma {:induction false} FirstTime<U>(m: Machine<U>, c: Callee, arr: int, e: Expr, shift: int, esp: int, s: State<U>)
    requires Lawful(m) && WellTyped(e) && Below(e, shift, esp) && NoZeroDivisor(e)
    ensures Ready(m, s, Run(Steps(m), FirstPart(c, arr, e, shift, esp), Some(s)), OC(esp + 1), NC(ArgSlot(c, esp + 3)),
      Eval(m, e, shift, s.regs))
  {
    var a, b, code := OC(esp + 1), OC(arr), ArgCode(c, e, esp + 3, shift);
    MoveFirst(m, a, b, code, s);
    WrittenAbove(s.regs, a, s.regs[b], a);
    OperandReady(m, c, e, esp + 3, shift, esp, a, s.regs, s, State(Write(s.regs, a, s.regs[b]), s.world));
  }

  /** The registers when the array and the index are in their places. */
  function Placed(r: Regs, arr: int, n: Word, esp: int): Regs {
    Write(Write(r, OC(esp + 4), r[OC(arr)]), NC(esp + 5), n)
  }

  lemma PlacedAbove(r: Regs, arr: int, n: Word, esp: int)
    ensures SameBelow(r, Placed(r, arr, n, esp), OC(esp + 4))
    ensures Placed(r, arr, n, esp)[OC(esp + 4)] == r[OC(arr)] && Placed(r, arr, n, esp)[NC(esp + 5)] == n
  {
  }

  lemma {:induction false} BothPlaced<U>(m: Machine<U>, arr: int, n: Word, esp: int, code: seq<Op>, u: State<U>)
    ensures Run(Steps(m), [NMOV(OC(esp + 4), OC(arr)), NSET(NC(esp + 5), n)] + code, Some(u))
      == Run(Steps(m), code, Some(State(Placed(u.regs, arr, n, esp), u.world)))
  {
    var move, more := NMOV(OC(esp + 4), OC(arr)), NSET(NC(esp + 5), n);
    assert [move, more] + code == [move] + ([more] + code);
    MoveFirst(m, OC(esp + 4), OC(arr), [more] + code, u);
    SetFirst(m, NC(esp + 5), n, code, State(Write(u.regs, OC(esp + 4), u.regs[OC(arr)]), u.world));
  }

  lemma OperandsReady<U>(m: Machine<U>, c: Callee, arr: int, n: Word, e: Expr, shift: int, esp: int, r: Regs,
      u: State<U>)
    requires Lawful(m) && WellTyped(e) && Below(e, shift, esp) && NoZeroDivisor(e) && SameBelow(r, u.regs, NC(esp))
    ensures Ready(m, u, Run(Steps(m), Operands(c, arr, n, e, shift, esp), Some(u)), OC(esp + 4),
      NC(ArgSlot(c, esp + 6)), Eval(m, e, shift, r))
  {
    var code := ArgCode(c, e, esp + 6, shift);
    BothPlaced(m, arr, n, esp, code, u);
    PlacedReady(m, c, arr, n, e, shift, esp, r, u);
  }

  lemma PlacedReady<U>(m: Machine<U>, c: Callee, arr: int, n: Word, e: Expr, shift: int, esp: int, r: Regs, u: State<U>)
    requires Lawful(m) && WellTyped(e) && Below(e, shift, esp) && NoZeroDivisor(e) && SameBelow(r, u.regs, NC(esp))
    ensures var w := State(Placed(u.regs, arr, n, esp), u.world);
      Ready(m, u, Run(Steps(m), ArgCode(c, e, esp + 6, shift), Some(w)), OC(esp + 4), NC(ArgSlot(c, esp + 6)),
        Eval(m, e, shift, r))
  {
    PlacedAbove(u.regs, arr, n, esp);
    OperandReady(m, c, e, esp + 6, shift, esp, OC(esp + 4), r, u, State(Placed(u.regs, arr, n, esp), u.world));
  }

  /** the second time that of the tree left behind is. */
  lemma SecondTime<U>(m: Machine<U>, c: Callee, arr: int, n: Word, e: Expr, shift: int, esp: int, r: Regs, u: State<U>)
    requires Lawful(m) && WellTyped(e) && Below(e, shift, esp) && NoZeroDivisor(e) && SameBelow(r, u.regs, NC(esp))
    ensures Ready(m, u, Run(Steps(m), SecondPart(c, arr, n, e, shift, esp), Some(u)), OC(esp + 4),
      NC(ArgSlot(c, esp + 6)), Eval(m, SwapTree(e), shift, r))
  {
    SwapTreeTyped(e, shift, esp);
    OperandsReady(m, c, arr, n, SwapTree(e), shift, esp, r, u);
  }

  /** And the array and the index are in their places. */
  lemma {:induction false} OperandsPlaced<U>(m: Machine<U>, c: Callee, arr: int, n: Word, e: Expr, shift: int,
      esp: int, r: Regs, u: State<U>)
    requires Lawful(m) && WellTyped(e) && Below(e, shift, esp) && NoZeroDivisor(e) && SameBelow(r, u.regs, NC(esp))
    requires InSlots(c, arr, esp)
    ensures var t := Run(Steps(m), Operands(c, arr, n, e, shift, esp), Some(u));
      t.Some? ==>
        && t.value.regs[OC(esp + 4)] == r[OC(arr)] && t.value.regs[NC(esp + 5)] == n
        && InPlace(c, r, t.value.regs, esp + 6)
  {
    BothPlaced(m, arr, n, esp, ArgCode(c, e, esp + 6, shift), u);
    PlacedAbove(u.regs, arr, n, esp);
    PlacedReceiver(m, c, e, esp + 6, shift, esp, OC(esp + 4), r, u, State(Placed(u.regs, arr, n, esp), u.world));
    PlacedKept(m, c, e, esp + 6, shift, esp, OC(esp + 4), r, u, State(Placed(u.regs, arr, n, esp), u.world));
  }

  lemma {:induction false} PlacedKept<U>(m: Machine<U>, c: Callee, e: Expr, slot: int, shift: int, esp: int,
      below: Reg, r: Regs, u: State<U>, w: State<U>)
    requires Lawful(m) && WellTyped(e) && Below(e, shift, esp) && NoZeroDivisor(e) && esp < slot
    requires SameBelow(r, u.regs, NC(esp)) && SameBelow(u.regs, w.regs, below) && NC(esp) <= below
    ensures var t := Run(Steps(m), ArgCode(c, e, slot, shift), Some(w));
      t.Some? ==> SameBelow(w.regs, t.value.regs, OC(slot))
  {
    SameFurther(r, u.regs, w.regs, NC(esp), below);
    OperandReady(m, c, e, slot, shift, esp, OC(slot), r, w, w);
  }

  lemma {:induction false} PlacedReceiver<U>(m: Machine<U>, c: Callee, e: Expr, slot: int, shift: int, esp: int,
      below: Reg,
      r: Regs, u: State<U>, w: State<U>)
    requires Lawful(m) && WellTyped(e) && Below(e, shift, esp) && NoZeroDivisor(e) && esp < slot
    requires SameBelow(r, u.regs, NC(esp)) && SameBelow(u.regs, w.regs, below) && NC(esp) <= below
    requires c.Method? ==> c.self <= esp
    ensures var t := Run(Steps(m), ArgCode(c, e, slot, shift), Some(w)); t.Some? ==> InPlace(c, r, t.value.regs, slot)
  {
    SameFurther(r, u.regs, w.regs, NC(esp), below);
    if c.Method? { ReceiverReady(m, c, e, slot, shift, esp, r, w); }
  }

  lemma {:induction false} SecondPlaced<U>(m: Machine<U>, c: Callee, arr: int, n: Word, e: Expr, shift: int, esp: int,
      r: Regs, u: State<U>)
    requires Lawful(m) && WellTyped(e) && Below(e, shift, esp) && NoZeroDivisor(e) && SameBelow(r, u.regs, NC(esp))
    requires InSlots(c, arr, esp)
    ensures var t := Run(Steps(m), SecondPart(c, arr, n, e, shift, esp), Some(u));
      t.Some? ==>
        && t.value.regs[OC(esp + 4)] == r[OC(arr)] && t.value.regs[NC(esp + 5)] == n
        && InPlace(c, r, t.value.regs, esp + 6)
  {
    SwapTreeTyped(e, shift, esp);
    OperandsPlaced(m, c, arr, n, SwapTree(e), shift, esp, r, u);
  }

  /** The first time too: the array is in its place, and the receiver. */
  lemma {:induction false} FirstPlaced<U>(m: Machine<U>, c: Callee, arr: int, e: Expr, shift: int, esp: int,
      s: State<U>)
    requires Lawful(m) && WellTyped(e) && Below(e, shift, esp) && NoZeroDivisor(e) && InSlots(c, arr, esp)
    ensures var t := Run(Steps(m), FirstPart(c, arr, e, shift, esp), Some(s));
      t.Some? ==> t.value.regs[OC(esp + 1)] == s.regs[OC(arr)] && InPlace(c, s.regs, t.value.regs, esp + 3)
  {
    var a, b := OC(esp + 1), OC(arr);
    var w := State(Write(s.regs, a, s.regs[b]), s.world);
    MoveFirst(m, a, b, ArgCode(c, e, esp + 3, shift), s);
    WrittenAbove(s.regs, a, s.regs[b], a);
    PlacedReceiver(m, c, e, esp + 3, shift, esp, a, s.regs, s, w);
    PlacedKept(m, c, e, esp + 3, shift, esp, a, s.regs, s, w);
  }

  // ---------------------------------------------------------------- both times together

  /** A call keeps what lies below the slot of its result. */
  ghost predicate KeepsBelow<U(!new)>(m: Machine<U>, c: Callee, slot: int) {
    c.Method? ==> forall s, t :: m.other(c.tag, s) == Some(t) ==> SameBelow(s.regs, t.regs, OC(slot))
  }

  lemma {:induction false} CallKeeps<U(!new)>(m: Machine<U>, c: Callee, slot: int, s: State<U>)
    requires KeepsBelow(m, c, slot)
    ensures var t := Run(Steps(m), CallOp(c), Some(s)); t.Some? ==> SameBelow(s.regs, t.value.regs, OC(slot))
  {
    if c.Method? { RunOne(Steps(m), Other(c.tag), Some(s)); }
  }

  /** The states on the way: the value operand evaluated once, and called if it is a call, */
  function Once<U>(m: Machine<U>, c: Callee, arr: int, e: Expr, shift: int, esp: int, s: State<U>): Option<State<U>> {
    Run(Steps(m), FirstPart(c, arr, e, shift, esp), Some(s))
  }

  function Called<U>(m: Machine<U>, c: Callee, arr: int, e: Expr, shift: int, esp: int, s: State<U>): Option<State<U>> {
    Run(Steps(m), CallOp(c), Once(m, c, arr, e, shift, esp, s))
  }

  /** and evaluated again, with all operands of set in place. */
  function Again<U>(m: Machine<U>, c: Callee, arr: int, n: Word, e: Expr, shift: int, esp: int,
      s: State<U>): Option<State<U>> {
    Run(Steps(m), SecondPart(c, arr, n, e, shift, esp), Called(m, c, arr, e, shift, esp, s))
  }

  /** The code of set passes through these states. */
  lemma {:induction false} SetRuns<U>(m: Machine<U>, c: Callee, arr: int, n: Word, e: Expr, shift: int, esp: int,
      tag: nat, s: State<U>)
    ensures Run(Steps(m), SetCode(c, arr, n, e, shift, esp, tag), Some(s))
      == Run(Steps(m), CallOp(c) + [Other(tag)], Again(m, c, arr, n, e, shift, esp, s))
  {
    var first, call, second := FirstPart(c, arr, e, shift, esp), CallOp(c), SecondPart(c, arr, n, e, shift, esp);
    ThreeParts(Steps(m), first, call, second, call + [Other(tag)], Some(s));
    assert first + call + second + (call + [Other(tag)]) == first + call + second + call + [Other(tag)];
  }

  lemma {:induction false} ThreeParts<S>(exec: Semantics<S>, a: seq<Op>, b: seq<Op>, c: seq<Op>, d: seq<Op>,
      s: Option<S>)
    ensures Run(exec, a + b + c + d, s) == Run(exec, d, Run(exec, c, Run(exec, b, Run(exec, a, s))))
  {
    RunAppend(exec, a + b + c, d, s);
    RunAppend(exec, a + b, c, s);
    RunAppend(exec, a, b, s);
  }

  lemma {:induction false} CalledKeeps<U(!new)>(m: Machine<U>, c: Callee, arr: int, e: Expr, shift: int, esp: int,
      s: State<U>)
    requires Lawful(m) && WellTyped(e) && Below(e, shift, esp) && NoZeroDivisor(e) && KeepsBelow(m, c, esp + 3)
    ensures var u := Called(m, c, arr, e, shift, esp, s);
      u.Some? ==> Once(m, c, arr, e, shift, esp, s).Some? && SameBelow(s.regs, u.value.regs, OC(esp + 1))
  {
    var t := Once(m, c, arr, e, shift, esp, s);
    if t.Some? {
      FirstTime(m, c, arr, e, shift, esp, s);
      CallKeeps(m, c, esp + 3, t.value);
    } else {
      RunTrapped(Steps(m), CallOp(c));
    }
  }

  lemma {:induction false} AgainReady<U(!new)>(m: Machine<U>, c: Callee, arr: int, n: Word, e: Expr, shift: int,
      esp: int,
      s: State<U>)
    requires Lawful(m) && WellTyped(e) && Below(e, shift, esp) && NoZeroDivisor(e) && KeepsBelow(m, c, esp + 3)
    requires InSlots(c, arr, esp) && Called(m, c, arr, e, shift, esp, s).Some?
    ensures var u, t := Called(m, c, arr, e, shift, esp, s).value, Again(m, c, arr, n, e, shift, esp, s);
      && Ready(m, u, t, OC(esp + 4), NC(ArgSlot(c, esp + 6)), Eval(m, SwapTree(e), shift, s.regs))
      && (t.Some? ==>
        && t.value.regs[OC(esp + 4)] == s.regs[OC(arr)] && t.value.regs[NC(esp + 5)] == n
        && InPlace(c, s.regs, t.value.regs, esp + 6))
  {
    CalledKeeps(m, c, arr, e, shift, esp, s);
    var u := Called(m, c, arr, e, shift, esp, s).value;
    SecondTime(m, c, arr, n, e, shift, esp, s.regs, u);
    SecondPlaced(m, c, arr, n, e, shift, esp, s.regs, u);
  }

  lemma {:induction false} AgainOnlyIfCalled<U>(m: Machine<U>, c: Callee, arr: int, n: Word, e: Expr, shift: int,
      esp: int,
      s: State<U>)
    requires Called(m, c, arr, e, shift, esp, s).None?
    ensures Again(m, c, arr, n, e, shift, esp, s).None?
  {
    RunTrapped(Steps(m), SecondPart(c, arr, n, e, shift, esp));
  }

  /** A set with a literal index below zero evaluates its value operand twice: first the source
      tree, then the tree left behind, on the registers there were at the start. Both times the
      array, and the receiver if the operand is a call, are in their places. */
  lemma {:induction false} EvaluatedTwice<U(!new)>(m: Machine<U>, c: Callee, arr: int, n: Word, e: Expr, shift: int,
      esp: int, s: State<U>)
    requires Lawful(m) && WellTyped(e) && Below(e, shift, esp) && NoZeroDivisor(e) && KeepsBelow(m, c, esp + 3)
    requires InSlots(c, arr, esp)
    ensures var t := Once(m, c, arr, e, shift, esp, s);
      && Ready(m, s, t, OC(esp + 1), NC(ArgSlot(c, esp + 3)), Eval(m, e, shift, s.regs))
      && (t.Some? ==> t.value.regs[OC(esp + 1)] == s.regs[OC(arr)] && InPlace(c, s.regs, t.value.regs, esp + 3))
    ensures var u, t := Called(m, c, arr, e, shift, esp, s), Again(m, c, arr, n, e, shift, esp, s);
      && (u.Some? ==>
        Ready(m, u.value, t, OC(esp + 4), NC(ArgSlot(c, esp + 6)), Eval(m, SwapTree(e), shift, s.regs)))
      && (t.Some? ==>
        && t.value.regs[OC(esp + 4)] == s.regs[OC(arr)] && t.value.regs[NC(esp + 5)] == n
        && InPlace(c, s.regs, t.value.regs, esp + 6))
  {
    FirstTime(m, c, arr, e, shift, esp, s);
    FirstPlaced(m, c, arr, e, shift, esp, s);
    if Called(m, c, arr, e, shift, esp, s).Some? {
      AgainReady(m, c, arr, n, e, shift, esp, s);
    } else {
      AgainOnlyIfCalled(m, c, arr, n, e, shift, esp, s);
    }
  }

  /** Two values of one expression that a register holds are the same. */
  lemma HeldOnce<U>(m: Machine<U>, w: Word, v: Value, v': Value)
    requires v.Bool? == v'.Bool? && Holds(m, w, v')
    ensures Holds(m, w, v) <==> v == v'
  {
  }

  /** A comparison has a truth value, any other method none. */
  lemma {:induction false} SameKind<U>(m: Machine<U>, e: Expr, e': Expr, shift: int, regs: Regs)
    requires Lawful(m) && WellTyped(e) && WellTyped(e') && IsInt(e) == IsInt(e')
    requires Eval(m, e, shift, regs).Some? && Eval(m, e', shift, regs).Some?
    ensures Eval(m, e, shift, regs).value.Bool? == Eval(m, e', shift, regs).value.Bool?
  {
  }

  /** The second time the value of the source tree is passed on exactly if the tree is no order
      comparison of a literal, or the comparison has the same outcome either way round. */
  lemma {:induction false} SecondExactly<U(!new)>(m: Machine<U>, c: Callee, arr: int, n: Word, e: Expr, shift: int,
      esp: int, s: State<U>)
    requires Lawful(m) && WellTyped(e) && Below(e, shift, esp) && NoZeroDivisor(e) && KeepsBelow(m, c, esp + 3)
    requires InSlots(c, arr, esp)
    requires Again(m, c, arr, n, e, shift, esp, s).Some?
    ensures Eval(m, e, shift, s.regs).Some?
    ensures var w := Again(m, c, arr, n, e, shift, esp, s).value.regs[NC(ArgSlot(c, esp + 6))];
      Holds(m, w, Eval(m, e, shift, s.regs).value)
      <==> (e.Bin? && e.l.NConst? && Flip(e.mn) != e.mn ==> Symmetric(m, e.mn, e.l.n, Eval(m, e.r, shift, s.regs)))
  {
    PassedOn(m, c, arr, n, e, shift, esp, s);
    SwapTreeTyped(e, shift, esp);
    SameKind(m, e, SwapTree(e), shift, s.regs);
    HeldOnce(m, Again(m, c, arr, n, e, shift, esp, s).value.regs[NC(ArgSlot(c, esp + 6))],
      Eval(m, e, shift, s.regs).value, Eval(m, SwapTree(e), shift, s.regs).value);
    SwapTreeExactly(m, e, shift, s.regs);
  }

  lemma {:induction false} PassedOn<U(!new)>(m: Machine<U>, c: Callee, arr: int, n: Word, e: Expr, shift: int,
      esp: int, s: State<U>)
    requires Lawful(m) && WellTyped(e) && Below(e, shift, esp) && NoZeroDivisor(e) && KeepsBelow(m, c, esp + 3)
    requires InSlots(c, arr, esp)
    requires Again(m, c, arr, n, e, shift, esp, s).Some?
    ensures Eval(m, e, shift, s.regs).Some? && Eval(m, SwapTree(e), shift, s.regs).Some?
    ensures Once(m, c, arr, e, shift, esp, s).Some?
    ensures Holds(m, Once(m, c, arr, e, shift, esp, s).value.regs[NC(ArgSlot(c, esp + 3))],
      Eval(m, e, shift, s.regs).value)
    ensures Holds(m, Again(m, c, arr, n, e, shift, esp, s).value.regs[NC(ArgSlot(c, esp + 6))],
      Eval(m, SwapTree(e), shift, s.regs).value)
  {
    EvaluatedTwice(m, c, arr, n, e, shift, esp, s);
    CalledKeeps(m, c, arr, e, shift, esp, s);
    if Called(m, c, arr, e, shift, esp, s).None? { RunTrapped(Steps(m), SecondPart(c, arr, n, e, shift, esp)); }
  }

  /** On 64-bit words, of an order comparison with a literal k on the left: exactly if the right
      operand is k. */
  lemma {:induction false} SecondOnKonoha<U(!new)>(m: Machine<U>, c: Callee, arr: int, n: Word, mn: Method, k: Word,
      r: Expr, shift: int, esp: int,
      s: State<U>)
    requires Lawful(m) && m.apply == Apply && KeepsBelow(m, c, esp + 3) && InSlots(c, arr, esp) && Flip(mn) != mn
    requires var e := Bin(mn, NConst(k), r); WellTyped(e) && Below(e, shift, esp) && NoZeroDivisor(e)
    requires Again(m, c, arr, n, Bin(mn, NConst(k), r), shift, esp, s).Some?
    ensures Eval(m, Bin(mn, NConst(k), r), shift, s.regs).Some?
    ensures var e := Bin(mn, NConst(k), r);
      var w := Again(m, c, arr, n, e, shift, esp, s).value.regs[NC(ArgSlot(c, esp + 6))];
      Holds(m, w, Eval(m, e, shift, s.regs).value) <==> Eval(m, r, shift, s.regs) == Some(Num(k))
  {
    SecondExactly(m, c, arr, n, Bin(mn, NConst(k), r), shift, esp, s);
    ComparedWith(m, mn, k, r, shift, s.regs);
  }

  lemma {:induction false} ComparedWith<U>(m: Machine<U>, mn: Method, k: Word, r: Expr, shift: int, regs: Regs)
    requires Lawful(m) && m.apply == Apply && Flip(mn) != mn && WellTyped(r) && IsInt(r)
    requires Eval(m, Bin(mn, NConst(k), r), shift, regs).Some?
    ensures var y := Eval(m, r, shift, regs); y.Some? && y.value.Num? && (Symmetric(m, mn, k, y) <==> y == Some(Num(k)))
  {
    IntValue(m, r, shift, regs);
    OutcomeTurned(mn, k, Eval(m, r, shift, regs).value.w);
  }

  /** So a.set(-1, o.f(1 < x)) calls f on o twice when x is 0: with false, and with true. */
  lemma CalledWithBoth<U(!new)>(m: Machine<U>, c: Callee, arr: int, e: Expr, esp: int, s: State<U>)
    requires Lawful(m) && m.apply == Apply && KeepsBelow(m, c, esp + 3) && InSlots(c, arr, esp) && 0 < esp
    requires e == Bin(LT, NConst(1), Local(0)) && s.regs[NC(0)] == 0
    ensures var t := Once(m, c, arr, e, 0, esp, s);
      && t.Some? && !IsTrue(m, t.value.regs[NC(ArgSlot(c, esp + 3))]) && InPlace(c, s.regs, t.value.regs, esp + 3)
    ensures Called(m, c, arr, e, 0, esp, s).Some? ==>
      var t := Again(m, c, arr, -1, e, 0, esp, s);
      && t.Some? && IsTrue(m, t.value.regs[NC(ArgSlot(c, esp + 6))]) && InPlace(c, s.regs, t.value.regs, esp + 6)
  {
    EvaluatedTwice(m, c, arr, -1, e, 0, esp, s);
    LessTurned(m, e, s.regs);
  }
}
