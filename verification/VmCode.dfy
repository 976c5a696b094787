/**
  The instructions of the classic virtual machine that the integer compiler and the
  peephole pass handle (module/classicvm/classicvm_.h), and what they do to the
  registers (src/vm/vm.h). An instruction that neither of them looks at is Other; what
  it does is up to the machine.
 */
module VmCode {

  import opened Options

  /** A register holds a 64-bit word, here as a signed number. */
  type Word = int
  type Reg = int
  type Regs = r: imap<Reg, Word> | forall i: Reg :: i in r
    ghost witness imap i: Reg :: 0

  /** The registers and all else that instructions can change. */
  datatype State<U> = State(regs: Regs, world: U)

  /** The integer methods of binary operators, by their names in Konoha, and the comparisons of
      floating-point numbers. */
  datatype Method =
    | ADD | SUB | MUL | DIV | MOD | EQ | NEQ | LT | LTE | GT | GTE | AND | OR | XOR | LSFT | RSFT
    | FEQ | FNEQ | FLT | FLTE | FGT | FGTE

  datatype Value = Num(w: Word) | Bool(b: bool)

  /** How a machine computes: an operation traps when apply has no value, and setBool puts a
      truth value into the part of a word that isTrue looks at. */
  datatype Machine<!U> = Machine(
    apply: (Method, Word, Word) -> Option<Value>,
    neg: Word -> Word,
    setBool: (Word, bool) -> Word,
    isTrue: Word -> bool,
    toInt: Word -> Word,
    toFloat: Word -> Word,
    other: (nat, State<U>) -> Option<State<U>>)

  datatype Op =
    | NOP
    | NSET(a: Reg, n: Word)
    | NSET2(a: Reg, n: Word, n2: Word)
    | NSET3(a: Reg, n: Word, n2: Word, n3: Word)
    | NSET4(a: Reg, n: Word, n2: Word, n3: Word, n4: Word)
    | OSET(a: Reg, n: Word)
    | OSET2(a: Reg, n: Word, n2: Word)
    | OSET3(a: Reg, n: Word, n2: Word, n3: Word)
    | OSET4(a: Reg, n: Word, n2: Word, n3: Word, n4: Word)
    | NMOV(a: Reg, b: Reg)
    | OMOV(a: Reg, b: Reg)
    | NNMOV(a: Reg, b: Reg, c: Reg, d: Reg)
    | ONMOV(a: Reg, b: Reg, c: Reg, d: Reg)
    | OOMOV(a: Reg, b: Reg, c: Reg, d: Reg)
    | ICAST(a: Reg, b: Reg)
    | FCAST(a: Reg, b: Reg)
    | INEG(c: Reg, a: Reg)
    | BNOT(c: Reg, a: Reg)
    | Arith(code: nat, c: Reg, a: Reg, b: Reg)
    | ArithC(code: nat, c: Reg, a: Reg, n: Word)
    | JMPF(a: Reg)
    | Jump(code: nat, a: Reg, b: Reg)
    | JumpC(code: nat, a: Reg, n: Word)
    | Other(tag: nat)

  /** From a register to the same one of the next stack slot. */
  const K_NEXTIDX: int := 2

  // ---------------------------------------------------------------- opcodes

  const OPCODE_IADD: nat := 30
  const OPCODE_IEQ: nat := 35
  const OPCODE_IGTE: nat := 40
  const OPCODE_IADDC: nat := 46
  const OPCODE_IEQC: nat := 51
  const OPCODE_IGTEC: nat := 56
  const OPCODE_FADD: nat := 62
  const OPCODE_FEQ: nat := 66
  const OPCODE_FGTE: nat := 71
  const OPCODE_FADDC: nat := 72
  const OPCODE_FEQC: nat := 76
  const OPCODE_FGTEC: nat := 81
  const OPCODE_IJEQ: nat := 108
  const OPCODE_IJEQC: nat := 114
  const OPCODE_FJEQ: nat := 120
  const OPCODE_FJEQC: nat := 126

  /** OPimn and OPfmn: the opcode of a method, moved on by diff. */
  function OPimn(mn: Method, diff: nat): nat {
    diff + match mn
      case ADD => 30 case SUB => 31 case MUL => 32 case DIV => 33 case MOD => 34
      case EQ => 35 case NEQ => 36 case LT => 37 case LTE => 38 case GT => 39 case GTE => 40
      case AND => 41 case OR => 42 case XOR => 43 case LSFT => 44 case RSFT => 45
      case FEQ => 66 case FNEQ => 67 case FLT => 68 case FLTE => 69 case FGT => 70 case FGTE => 71
  }

  /** From an instruction on two registers to the one on a register and a constant. */
  function ConstDiff(mn: Method): nat {
    if IsFloat(mn) then OPCODE_FADDC - OPCODE_FADD else OPCODE_IADDC - OPCODE_IADD
  }

  /** What the opcodes of the form c = a op b stand for. */
  function ArithMethod(code: nat): Option<Method> {
    match code
    case 30 => Some(ADD) case 31 => Some(SUB) case 32 => Some(MUL) case 33 => Some(DIV) case 34 => Some(MOD)
    case 35 => Some(EQ) case 36 => Some(NEQ) case 37 => Some(LT) case 38 => Some(LTE) case 39 => Some(GT)
    case 40 => Some(GTE)
    case 41 => Some(AND) case 42 => Some(OR) case 43 => Some(XOR) case 44 => Some(LSFT) case 45 => Some(RSFT)
    case 66 => Some(FEQ) case 67 => Some(FNEQ) case 68 => Some(FLT) case 69 => Some(FLTE) case 70 => Some(FGT)
    case 71 => Some(FGTE)
    case _ => None
  }

  /** What the opcodes of the form c = a op constant stand for. */
  function ArithCMethod(code: nat): Option<Method> {
    match code
    case 46 => Some(ADD) case 47 => Some(SUB) case 48 => Some(MUL) case 49 => Some(DIV) case 50 => Some(MOD)
    case 51 => Some(EQ) case 52 => Some(NEQ) case 53 => Some(LT) case 54 => Some(LTE) case 55 => Some(GT)
    case 56 => Some(GTE)
    case 57 => Some(AND) case 58 => Some(OR) case 59 => Some(XOR) case 60 => Some(LSFT) case 61 => Some(RSFT)
    case 76 => Some(FEQ) case 77 => Some(FNEQ) case 78 => Some(FLT) case 79 => Some(FLTE) case 80 => Some(FGT)
    case 81 => Some(FGTE)
    case _ => None
  }

  /** The comparison that the fused jumps make. */
  function JumpMethod(code: nat): Option<Method> {
    match code
    case 108 => Some(EQ) case 109 => Some(NEQ) case 110 => Some(LT) case 111 => Some(LTE) case 112 => Some(GT)
    case 113 => Some(GTE)
    case 120 => Some(FEQ) case 121 => Some(FNEQ) case 122 => Some(FLT) case 123 => Some(FLTE) case 124 => Some(FGT)
    case 125 => Some(FGTE)
    case _ => None
  }

  function JumpCMethod(code: nat): Option<Method> {
    match code
    case 114 => Some(EQ) case 115 => Some(NEQ) case 116 => Some(LT) case 117 => Some(LTE) case 118 => Some(GT)
    case 119 => Some(GTE)
    case 126 => Some(FEQ) case 127 => Some(FNEQ) case 128 => Some(FLT) case 129 => Some(FLTE) case 130 => Some(FGT)
    case 131 => Some(FGTE)
    case _ => None
  }

  predicate IsFloat(mn: Method) {
    mn in {FEQ, FNEQ, FLT, FLTE, FGT, FGTE}
  }

  predicate IsCompare(mn: Method) {
    mn in {EQ, NEQ, LT, LTE, GT, GTE} || IsFloat(mn)
  }

  /** The opcodes of the comparisons. */
  predicate IsCompareCode(code: nat) {
    OPCODE_IEQ <= code <= OPCODE_IGTE || OPCODE_FEQ <= code <= OPCODE_FGTE
  }

  predicate IsCompareCCode(code: nat) {
    OPCODE_IEQC <= code <= OPCODE_IGTEC || OPCODE_FEQC <= code <= OPCODE_FGTEC
  }

  /** The opcode of the jump that a comparison is fused into. */
  function JumpCode(code: nat): nat
    requires IsCompareCode(code)
  {
    if code <= OPCODE_IGTE then OPCODE_IJEQ + (code - OPCODE_IEQ) else OPCODE_FJEQ + (code - OPCODE_FEQ)
  }

  function JumpCCode(code: nat): nat
    requires IsCompareCCode(code)
  {
    if code <= OPCODE_IGTEC then OPCODE_IJEQC + (code - OPCODE_IEQC) else OPCODE_FJEQC + (code - OPCODE_FEQC)
  }

  /** Opcode arithmetic lands on the instruction meant: the constant form of a method is found
      at the distance of iADDC from iADD, or of fADDC from fADD, and the fused jump of a
      comparison at that of iJEQ from iEQ, or of fJEQ from fEQ. */
  lemma OpcodeOffsets(mn: Method)
    ensures ArithMethod(OPimn(mn, 0)) == Some(mn)
    ensures ArithCMethod(OPimn(mn, ConstDiff(mn))) == Some(mn)
    ensures IsCompare(mn) <==> IsCompareCode(OPimn(mn, 0))
    ensures IsCompare(mn) <==> IsCompareCCode(OPimn(mn, ConstDiff(mn)))
    ensures IsCompare(mn) ==> JumpMethod(JumpCode(OPimn(mn, 0))) == Some(mn)
    ensures IsCompare(mn) ==> JumpCMethod(JumpCCode(OPimn(mn, ConstDiff(mn)))) == Some(mn)
  {
    CodesMeant(mn);
    CompareCodes(OPimn(mn, 0));
    CompareCodes(OPimn(mn, ConstDiff(mn)));
  }

  lemma CodesMeant(mn: Method)
    ensures ArithMethod(OPimn(mn, 0)) == Some(mn)
    ensures ArithCMethod(OPimn(mn, ConstDiff(mn))) == Some(mn)
  {
  }

  /** And no other opcodes are taken for comparisons. */
  lemma CompareCodes(code: nat)
    ensures IsCompareCode(code) <==> ArithMethod(code).Some? && IsCompare(ArithMethod(code).value)
    ensures IsCompareCCode(code) <==> ArithCMethod(code).Some? && IsCompare(ArithCMethod(code).value)
    ensures IsCompareCode(code) ==> JumpMethod(JumpCode(code)) == ArithMethod(code)
    ensures IsCompareCCode(code) ==> JumpCMethod(JumpCCode(code)) == ArithCMethod(code)
  {
  }

  // ---------------------------------------------------------------- execution

  function Put(s: State, r: Reg, w: Word): State {
    State(Write(s.regs, r, w), s.world)
  }

  function SetBool<U>(m: Machine<U>, w: Word, b: bool): Word { m.setBool(w, b) }

  predicate IsTrue<U>(m: Machine<U>, w: Word) { m.isTrue(w) }

  /** Write a result to register c. */
  function PutValue<U>(m: Machine<U>, s: State<U>, c: Reg, v: Option<Value>): Option<State<U>> {
    match v
    case None => None
    case Some(Num(w)) => Some(Put(s, c, w))
    case Some(Bool(b)) => Some(Put(s, c, SetBool(m, s.regs[c], b)))
  }

  function PutApply<U>(m: Machine<U>, s: State<U>, mn: Option<Method>, c: Reg, x: Word, y: Word): Option<State<U>> {
    if mn.Some? then PutValue(m, s, c, m.apply(mn.value, x, y)) else None
  }

  function Write(r: Regs, a: Reg, w: Word): Regs {
    r[a := w]
  }

  function Write2(r: Regs, a: Reg, n: Word, n2: Word): Regs {
    Write(Write(r, a, n), a + K_NEXTIDX, n2)
  }

  /** The instructions that only copy words: set registers that follow each other, N to
      numbers or O to objects, and move registers, one or two in order. */
  predicate Moves(op: Op) {
    || op.NOP? || op.NSET? || op.NSET2? || op.NSET3? || op.NSET4? || op.OSET? || op.OSET2? || op.OSET3? || op.OSET4?
    || op.NMOV? || op.OMOV? || op.NNMOV? || op.ONMOV? || op.OOMOV?
  }

  function Moved(op: Op, r: Regs): Regs {
    match op
    case NSET(a, n) => Write(r, a, n)
    case NSET2(a, n, n2) => Write2(r, a, n, n2)
    case NSET3(a, n, n2, n3) => Write(Write2(r, a, n, n2), a + K_NEXTIDX + K_NEXTIDX, n3)
    case NSET4(a, n, n2, n3, n4) =>
      Write(Write(Write2(r, a, n, n2), a + K_NEXTIDX + K_NEXTIDX, n3), a + K_NEXTIDX + K_NEXTIDX + K_NEXTIDX, n4)
    case OSET(a, n) => Write(r, a, n)
    case OSET2(a, n, n2) => Write2(r, a, n, n2)
    case OSET3(a, n, n2, n3) => Write(Write2(r, a, n, n2), a + K_NEXTIDX + K_NEXTIDX, n3)
    case OSET4(a, n, n2, n3, n4) =>
      Write(Write(Write2(r, a, n, n2), a + K_NEXTIDX + K_NEXTIDX, n3), a + K_NEXTIDX + K_NEXTIDX + K_NEXTIDX, n4)
    case NMOV(a, b) => Write(r, a, r[b])
    case OMOV(a, b) => Write(r, a, r[b])
    case NNMOV(a, b, c, d) => var t := Write(r, a, r[b]); Write(t, c, t[d])
    case ONMOV(a, b, c, d) => var t := Write(r, a, r[b]); Write(t, c, t[d])
    case OOMOV(a, b, c, d) => var t := Write(r, a, r[b]); Write(t, c, t[d])
    case _ => r
  }

  /** One instruction. Those that end a block leave the registers alone. */
  function Exec<U>(m: Machine<U>, op: Op, s: State<U>): Option<State<U>> {
    if Moves(op) then Some(State(Moved(op, s.regs), s.world)) else Compute(m, op, s)
  }

  function Compute<U>(m: Machine<U>, op: Op, s: State<U>): Option<State<U>> {
    match op
    case ICAST(a, b) => Some(Put(s, a, m.toInt(s.regs[b])))
    case FCAST(a, b) => Some(Put(s, a, m.toFloat(s.regs[b])))
    case INEG(c, a) => Some(Put(s, c, m.neg(s.regs[a])))
    case BNOT(c, a) => PutValue(m, s, c, Some(Bool(!IsTrue(m, s.regs[a]))))
    case Arith(code, c, a, b) => PutApply(m, s, ArithMethod(code), c, s.regs[a], s.regs[b])
    case ArithC(code, c, a, n) => PutApply(m, s, ArithCMethod(code), c, s.regs[a], n)
    case Other(tag) => m.other(tag, s)
    case _ => Some(s)
  }

  /** What instructions do, as a function value. */
  type Semantics<!S> = (Op, S) -> Option<S>

  function Steps<U>(m: Machine<U>): Semantics<State<U>> {
    (op, s) => Exec(m, op, s)
  }

  /** One more instruction, unless a trap came first. */
  function Then<S>(exec: Semantics<S>, op: Op, s: Option<S>): Option<S> {
    if s.None? then None else exec(op, s.value)
  }

  /** A run of instructions. */
  function Run<S>(exec: Semantics<S>, ops: seq<Op>, s: Option<S>): Option<S> {
    if ops == [] then s else Run(exec, ops[1..], Then(exec, ops[0], s))
  }

  lemma {:induction false} RunAppend<S>(exec: Semantics<S>, p: seq<Op>, q: seq<Op>, s: Option<S>)
    ensures Run(exec, p + q, s) == Run(exec, q, Run(exec, p, s))
    decreases |p|
  {
    if p == [] {
      assert p + q == q;
    } else {
      assert (p + q)[1..] == p[1..] + q;
      RunAppend(exec, p[1..], q, Then(exec, p[0], s));
    }
  }

  lemma {:induction false} RunTrapped<S>(exec: Semantics<S>, ops: seq<Op>)
    ensures Run(exec, ops, None) == None
  {
    if ops != [] { RunTrapped(exec, ops[1..]); }
  }

  lemma {:induction false} RunOne<S>(exec: Semantics<S>, op: Op, s: Option<S>)
    ensures Run(exec, [op], s) == Then(exec, op, s)
  {
    assert [op][1..] == [];
  }

  // ---------------------------------------------------------------- blocks

  /** The block that code is being added to. */
  class BasicBlock {
    var ops: seq<Op>

    constructor ()
      ensures ops == []
    {
      ops := [];
    }

    /** BUILD_asm: add an instruction at the end. */
    method Add(op: Op)
      modifies this
      ensures ops == old(ops) + [op]
    {
      ops := ops + [op];
    }
  }
}
