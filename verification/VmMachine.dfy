/**
  The machine on 64-bit words: what OPEXEC_iADD and its like do (src/vm/vm.h:770-814) as C
  does on the usual hardware, with no value where C gives none, and the comparisons of
  floating-point numbers in the binary64 format of IEEE 754. It has the properties that the
  compiler and the fusion rely on.
 */
module VmMachine {

  import opened Options
  import opened VmCode
  import opened VmCompile
  import opened VmBranch
  import opened Powers

  const TWO63: int := 0x8000_0000_0000_0000

  /** The signed word that x wraps around to. */
  function Wrap(x: int): Word {
    var u := x % 0x1_0000_0000_0000_0000;
    if u < 0x8000_0000_0000_0000 then u else u - 0x1_0000_0000_0000_0000
  }

  function And(p: bool, q: bool): bool { p && q }
  function Or(p: bool, q: bool): bool { p || q }
  function Xor(p: bool, q: bool): bool { p != q }

  /** The number whose bits, and sign, are those of x and y combined. */
  function Bitwise(f: (bool, bool) -> bool, x: int, y: int): int
    decreases Magnitude(x) + Magnitude(y)
  {
    if -1 <= x <= 0 && -1 <= y <= 0 then (if f(x < 0, y < 0) then -1 else 0)
    else 2 * Bitwise(f, x / 2, y / 2) + if f(x % 2 == 1, y % 2 == 1) then 1 else 0
  }

  function Magnitude(x: int): (m: int)
    ensures m >= 0
  {
    if x < 0 then -x else x
  }

  /** Division in C truncates toward zero. */
  function Quotient(x: int, y: int): int
    requires y != 0
  {
    if x >= 0 then (if y > 0 then x / y else -(x / -y))
    else (if y > 0 then -(-x / y) else -x / -y)
  }

  function Remainder(x: int, y: int): int
    requires y != 0
  {
    x - Quotient(x, y) * y
  }

  /** Where a floating-point number stands among all; none if the word is not a number. The sign
      is the top bit, and the other bits grow with the magnitude, up to infinity. */
  function FloatRank(x: Word): Option<int> {
    var magnitude := if x >= 0 then x else x + TWO63;
    if magnitude > 0x7FF0_0000_0000_0000 then None else Some(if x >= 0 then magnitude else -magnitude)
  }

  predicate FloatEq(x: Word, y: Word) {
    FloatRank(x).Some? && FloatRank(x) == FloatRank(y)
  }

  predicate FloatLess(x: Word, y: Word) {
    FloatRank(x).Some? && FloatRank(y).Some? && FloatRank(x).value < FloatRank(y).value
  }

  predicate Outcome(mn: Method, x: Word, y: Word)
    requires IsCompare(mn)
  {
    match mn
    case EQ => x == y
    case NEQ => x != y
    case LT => x < y
    case LTE => x <= y
    case GT => x > y
    case GTE => x >= y
    case FEQ => FloatEq(x, y)
    case FNEQ => !FloatEq(x, y)
    case FLT => FloatLess(x, y)
    case FLTE => FloatLess(x, y) || FloatEq(x, y)
    case FGT => FloatLess(y, x)
    case FGTE => FloatLess(y, x) || FloatEq(x, y)
  }

  function Result(mn: Method, x: Word, y: Word): Option<Word>
    requires !IsCompare(mn)
  {
    match mn
    case ADD => Some(Wrap(x + y))
    case SUB => Some(Wrap(x - y))
    case MUL => Some(Wrap(x * y))
    case DIV => if y == 0 || (x == -TWO63 && y == -1) then None else Some(Quotient(x, y))
    case MOD => if y == 0 || (x == -TWO63 && y == -1) then None else Some(Remainder(x, y))
    case AND => Some(Bitwise(And, x, y))
    case OR => Some(Bitwise(Or, x, y))
    case XOR => Some(Bitwise(Xor, x, y))
    case LSFT => if 0 <= y < 64 then Some(Wrap(x * Pow2(y))) else None
    case RSFT => if 0 <= y < 64 then Some(x / Pow2(y)) else None
  }

  function Apply(mn: Method, x: Word, y: Word): Option<Value> {
    if IsCompare(mn) then Some(Bool(Outcome(mn, x, y)))
    else if Result(mn, x, y).Some? then Some(Num(Result(mn, x, y).value))
    else None
  }

  /** A truth value is stored in the low byte of the word. */
  function WithLowByte(w: Word, b: bool): Word {
    w - w % 256 + if b then 1 else 0
  }

  predicate LowByte(w: Word) {
    w % 256 != 0
  }

  function Konoha64<U>(toInt: Word -> Word, toFloat: Word -> Word,
      other: (nat, State<U>) -> Option<State<U>>): Machine<U> {
    Machine(Apply, x => Wrap(-x), WithLowByte, LowByte, toInt, toFloat, other)
  }

  // ---------------------------------------------------------------- what the results are

  const TWO64: int := 0x1_0000_0000_0000_0000

  predicate IsWord(x: int) {
    -0x8000_0000_0000_0000 <= x <= 0x7FFF_FFFF_FFFF_FFFF
  }

  /** r is the word that differs from x by a multiple of 2^64. */
  ghost predicate IsWrapped(r: int, x: int) {
    IsWord(r) && exists k: int :: r == x + k * TWO64
  }

  lemma WrapIs(x: int)
    ensures IsWrapped(Wrap(x), x)
  {
    var q := x / TWO64;
    assert Wrap(x) == x + (-q) * TWO64 || Wrap(x) == x + (-q - 1) * TWO64;
  }

  lemma WrappedOnce(r: int, r': int, x: int)
    requires IsWrapped(r, x) && IsWrapped(r', x)
    ensures r == r'
  {
  }

  /** Sums, differences and products wrap around. */
  lemma WrapsAround(x: Word, y: Word)
    ensures IsWrapped(Result(ADD, x, y).value, x + y)
    ensures IsWrapped(Result(SUB, x, y).value, x - y)
    ensures IsWrapped(Result(MUL, x, y).value, x * y)
  {
    WrapIs(x + y);
    WrapIs(x - y);
    WrapIs(x * y);
  }

  lemma NegationIs<U>(x: Word, toInt: Word -> Word, toFloat: Word -> Word, other: (nat, State<U>) -> Option<State<U>>)
    ensures IsWrapped(Konoha64(toInt, toFloat, other).neg(x), -x)
  {
    WrapIs(-x);
  }

  lemma SubUndoesAdd(x: Word, y: Word)
    requires IsWord(x)
    ensures Result(SUB, Result(ADD, x, y).value, y) == Some(x)
  {
  }

  /** Quotient and remainder, where there are any: the remainder is smaller than the divisor and
      has the sign of the dividend. */
  lemma DivisionIs(x: Word, y: Word)
    requires IsWord(x) && IsWord(y)
    ensures Result(DIV, x, y).None? <==> y == 0 || (x == -0x8000_0000_0000_0000 && y == -1)
    ensures Result(MOD, x, y).None? <==> Result(DIV, x, y).None?
    ensures Result(DIV, x, y).Some? ==>
      var q, r := Result(DIV, x, y).value, Result(MOD, x, y).value;
      x == q * y + r && -Magnitude(y) < r < Magnitude(y) && (r == 0 || (r < 0 <==> x < 0))
  {
    if y != 0 { Truncates(x, y); }
  }

  lemma Truncates(x: int, y: int)
    requires y != 0
    ensures var r := Remainder(x, y); -Magnitude(y) < r < Magnitude(y) && (r == 0 || (r < 0 <==> x < 0))
  {
    var a, b := Magnitude(x), Magnitude(y);
    assert a == a / b * b + a % b;
    assert Quotient(x, y) * y == if x < 0 then -(a / b * b) else a / b * b;
  }

  /** A shift to the right rounds down. */
  lemma {:induction false} ShiftsRight(x: Word, y: Word)
    requires 0 <= y < 64
    ensures var r := Result(RSFT, x, y); r.Some? && r.value * Pow2(y) <= x < (r.value + 1) * Pow2(y)
    ensures IsWrapped(Result(LSFT, x, y).value, x * Pow2(y))
  {
    WrapIs(x * Pow2(y));
    var p := Pow2(y);
    assert x == x / p * p + x % p;
    assert (x / p + 1) * p == x / p * p + p;
  }

  /** Comparisons are those of a total order in which each number is before the next. */
  lemma OrderIs(x: Word, y: Word, z: Word)
    ensures Outcome(LT, x, x + 1) && !Outcome(LT, x, x)
    ensures Outcome(LT, x, y) && Outcome(LT, y, z) ==> Outcome(LT, x, z)
    ensures Outcome(EQ, x, y) <==> !Outcome(LT, x, y) && !Outcome(GT, x, y)
    ensures Outcome(GT, x, y) <==> Outcome(LT, y, x)
    ensures Outcome(LTE, x, y) <==> !Outcome(GT, x, y)
    ensures Outcome(GTE, x, y) <==> !Outcome(LT, x, y)
    ensures Outcome(NEQ, x, y) <==> !Outcome(EQ, x, y)
  {
  }

  /** All bits but the sign: exponent and fraction. */
  function Unsigned(x: Word): nat {
    x % 0x8000_0000_0000_0000
  }

  /** The exponent is all ones and the fraction not zero. */
  predicate IsNaN(x: Word) {
    Unsigned(x) > 0x7FF0_0000_0000_0000
  }

  /** Of what is not a number nothing holds but that it is unequal. */
  lemma NaNIs(x: Word, y: Word)
    requires IsWord(x) && IsWord(y) && (IsNaN(x) || IsNaN(y))
    ensures !Outcome(FLT, x, y) && !Outcome(FGT, x, y) && !Outcome(FEQ, x, y) && Outcome(FNEQ, x, y)
    ensures !Outcome(FLTE, x, y) && !Outcome(FGTE, x, y)
  {
  }

  /** Otherwise the sign and then the other bits decide, and the two zeros are equal. */
  lemma FloatOrderIs(x: Word, y: Word)
    requires IsWord(x) && IsWord(y)
    ensures !IsNaN(x) && !IsNaN(y) ==>
      && (0 <= x && 0 <= y ==> (Outcome(FLT, x, y) <==> Unsigned(x) < Unsigned(y)))
      && (x < 0 && y < 0 ==> (Outcome(FLT, x, y) <==> Unsigned(x) > Unsigned(y)))
      && (x < 0 && 0 <= y ==> (Outcome(FLT, x, y) <==> Unsigned(x) + Unsigned(y) > 0) && !Outcome(FGT, x, y))
      && (Outcome(FEQ, x, y) <==> !Outcome(FLT, x, y) && !Outcome(FGT, x, y))
      && (Outcome(FLTE, x, y) <==> !Outcome(FGT, x, y)) && (Outcome(FGTE, x, y) <==> !Outcome(FLT, x, y))
    ensures Outcome(FGT, x, y) <==> Outcome(FLT, y, x)
    ensures Outcome(FNEQ, x, y) <==> !Outcome(FEQ, x, y)
  {
  }

  /** A truth value takes the low byte, and leaves the seven others. */
  lemma LowByteOnly(w: Word, b: bool)
    ensures WithLowByte(w, b) / 256 == w / 256 && WithLowByte(w, b) % 256 == if b then 1 else 0
    ensures LowByte(w) <==> w % 256 > 0
  {
  }

  /** Bit i, as two's complement has it. */
  predicate BitAt(x: int, i: nat)
    decreases i
  {
    if i == 0 then x % 2 == 1 else BitAt(x / 2, i - 1)
  }

  lemma {:induction false} BitwiseBits(f: (bool, bool) -> bool, x: int, y: int, i: nat)
    ensures BitAt(Bitwise(f, x, y), i) == f(BitAt(x, i), BitAt(y, i))
    decreases i
  {
    var r := Bitwise(f, x, y);
    assert r / 2 == Bitwise(f, x / 2, y / 2) && (r % 2 == 1) == f(x % 2 == 1, y % 2 == 1);
    if i > 0 { BitwiseBits(f, x / 2, y / 2, i - 1); }
  }

  lemma {:induction false} BitwiseSigned(f: (bool, bool) -> bool, x: int, y: int, n: nat)
    requires 0 <= x + Pow2(n) < 2 * Pow2(n) && 0 <= y + Pow2(n) < 2 * Pow2(n)
    ensures 0 <= Bitwise(f, x, y) + Pow2(n) < 2 * Pow2(n)
    ensures Bitwise(f, x, y) < 0 <==> f(x < 0, y < 0)
    decreases n
  {
    if n > 0 { BitwiseSigned(f, x / 2, y / 2, n - 1); }
  }

  lemma {:induction false} BitwiseTurned(f: (bool, bool) -> bool, x: int, y: int)
    requires forall p, q :: f(p, q) == f(q, p)
    ensures Bitwise(f, x, y) == Bitwise(f, y, x)
    decreases Magnitude(x) + Magnitude(y)
  {
    if !(-1 <= x <= 0 && -1 <= y <= 0) { BitwiseTurned(f, x / 2, y / 2); }
  }

  /** The bitwise methods give words, each bit of which, and the sign, is the and, or, exclusive
      or of the two there. */
  lemma {:induction false} BitwiseIs(x: Word, y: Word, i: nat)
    requires IsWord(x) && IsWord(y)
    ensures var r := Result(AND, x, y).value;
      IsWord(r) && BitAt(r, i) == (BitAt(x, i) && BitAt(y, i)) && (r < 0 <==> x < 0 && y < 0)
    ensures var r := Result(OR, x, y).value;
      IsWord(r) && BitAt(r, i) == (BitAt(x, i) || BitAt(y, i)) && (r < 0 <==> x < 0 || y < 0)
    ensures var r := Result(XOR, x, y).value;
      IsWord(r) && BitAt(r, i) == (BitAt(x, i) != BitAt(y, i)) && (r < 0 <==> (x < 0) != (y < 0))
  {
    Pow63();
    BitwiseBits(And, x, y, i);
    BitwiseBits(Or, x, y, i);
    BitwiseBits(Xor, x, y, i);
    BitwiseSigned(And, x, y, 63);
    BitwiseSigned(Or, x, y, 63);
    BitwiseSigned(Xor, x, y, 63);
  }

  // ---------------------------------------------------------------- what the compiler relies on

  lemma FlipApply(mn: Method, x: Word, y: Word)
    requires Swaps(mn)
    ensures Apply(mn, x, y) == Apply(Flip(mn), y, x)
  {
    if mn.AND? { BitwiseTurned(And, x, y); }
    if mn.OR? { BitwiseTurned(Or, x, y); }
    if mn.XOR? { BitwiseTurned(Xor, x, y); }
  }

  /** The operands change places exactly where that is right for all numbers. */
  lemma SwapsExactly(mn: Method)
    requires !IsFloat(mn)
    ensures Swaps(mn) <==> forall x, y :: Apply(mn, x, y) == Apply(Flip(mn), y, x)
  {
    if Swaps(mn) {
      forall x, y ensures Apply(mn, x, y) == Apply(Flip(mn), y, x) { FlipApply(mn, x, y); }
    } else {
      assert Pow2(1) == 2 && Pow2(3) == 8;
      assert Apply(mn, 3, 1) != Apply(Flip(mn), 1, 3);
    }
  }

  lemma ApplyTyped(mn: Method, x: Word, y: Word)
    ensures Apply(mn, x, y).Some? ==> (Apply(mn, x, y).value.Bool? <==> IsCompare(mn))
  {
  }

  lemma KonohaIsLawful<U>(toInt: Word -> Word, toFloat: Word -> Word, other: (nat, State<U>) -> Option<State<U>>)
    ensures Lawful(Konoha64(toInt, toFloat, other))
  {
    var m := Konoha64(toInt, toFloat, other);
    forall mn, x, y ensures m.apply(mn, x, y).Some? ==> (m.apply(mn, x, y).value.Bool? <==> IsCompare(mn)) {
      ApplyTyped(mn, x, y);
    }
    forall mn, x, y | Swaps(mn) ensures m.apply(mn, x, y) == m.apply(Flip(mn), y, x) {
      FlipApply(mn, x, y);
    }
    forall w, b ensures IsTrue(m, SetBool(m, w, b)) == b {
      assert LowByte(WithLowByte(w, b)) == b;
    }
  }

  lemma ApplyCompares(mn: Method, x: Word, y: Word)
    requires IsCompare(mn)
    ensures Apply(mn, x, y).Some? && Apply(mn, x, y).value.Bool?
  {
  }

  lemma KonohaCompares<U>(toInt: Word -> Word, toFloat: Word -> Word, other: (nat, State<U>) -> Option<State<U>>)
    ensures Comparing(Konoha64(toInt, toFloat, other))
  {
    var m := Konoha64(toInt, toFloat, other);
    forall mn, x, y | IsCompare(mn)
      ensures m.apply(mn, x, y) == Some(Bool(true)) || m.apply(mn, x, y) == Some(Bool(false))
    {
      ApplyCompares(mn, x, y);
    }
  }

  /** A word whose truth value is that of its comparison with n, or is not. */
  function Separator(mn: Method, n: Word, same: bool): Word
    requires IsCompare(mn)
  {
    if same then
      match mn
      case EQ => if LowByte(n) then n else if n == 0 then 256 else 0
      case NEQ => if !LowByte(n) then n else if n == 1 then 2 else 1
      case LT => if 1 < n then 1 else 256
      case LTE => if 1 <= n then 1 else 256
      case GT => if 1 > n then 1 else 0
      case GTE => if 1 >= n then 1 else 0
      case FEQ => if FloatEq(1, n) then 1 else if FloatEq(0, n) then 256 else 0
      case FNEQ => if FloatEq(1, n) then 2 else 1
      case FLT => if FloatLess(1, n) then 1 else 256
      case FLTE => if FloatLess(1, n) || FloatEq(1, n) then 1 else 256
      case FGT => if FloatLess(n, 1) then 1 else 0
      case FGTE => if FloatLess(n, 1) || FloatEq(1, n) then 1 else 0
    else
      match mn
      case EQ => if n == 1 then 2 else 1
      case NEQ => if n == 1 then 1 else if n == 0 then 256 else 0
      case LT => if 1 < n then 0 else 1
      case LTE => if 1 <= n then 0 else 1
      case GT => if 1 > n then 256 else 1
      case GTE => if 1 >= n then 256 else 1
      case FEQ => if FloatEq(1, n) then 2 else 1
      case FNEQ => if FloatEq(0, n) then 256 else 0
      case FLT => if FloatLess(1, n) then 0 else 1
      case FLTE => if FloatLess(1, n) || FloatEq(1, n) then 0 else 1
      case FGT => if FloatLess(n, 1) then 256 else 1
      case FGTE => if FloatLess(n, 1) || FloatEq(1, n) then 256 else 1
  }

  lemma IntsSeparate(mn: Method, n: Word, same: bool)
    requires IsCompare(mn) && !IsFloat(mn)
    ensures var w := Separator(mn, n, same); (LowByte(w) == Outcome(mn, w, n)) == same
  {
  }

  lemma RanksOfSmall()
    ensures FloatRank(0) == Some(0) && FloatRank(1) == Some(1) && FloatRank(2) == Some(2) && FloatRank(256) == Some(256)
  {
  }

  lemma EqualFloatsSeparate(mn: Method, n: Word, same: bool)
    requires mn == FEQ || mn == FNEQ
    ensures var w := Separator(mn, n, same); (LowByte(w) == Outcome(mn, w, n)) == same
  {
    RanksOfSmall();
  }

  lemma OrderedFloatsSeparate(mn: Method, n: Word, same: bool)
    requires IsFloat(mn) && mn != FEQ && mn != FNEQ
    ensures var w := Separator(mn, n, same); (LowByte(w) == Outcome(mn, w, n)) == same
  {
    RanksOfSmall();
  }

  /** Zero and one, compared with themselves. */
  lemma ZeroWithItself(mn: Method)
    requires IsCompare(mn)
    ensures Outcome(mn, 0, 0) <==> mn in {EQ, LTE, GTE, FEQ, FLTE, FGTE}
  {
    RanksOfSmall();
  }

  lemma OneWithItself(mn: Method)
    requires IsCompare(mn)
    ensures Outcome(mn, 1, 1) <==> mn in {EQ, LTE, GTE, FEQ, FLTE, FGTE}
  {
    RanksOfSmall();
  }

  lemma ApplySeparates<U>(m: Machine<U>, mn: Method, w: Word, n: Word)
    requires m.apply == Apply && m.isTrue == LowByte && IsCompare(mn)
    ensures IsTrue(m, w) == LowByte(w) && Compares(m, Some(mn), w, n) == Outcome(mn, w, n)
  {
  }

  lemma NumberSeparates<U>(m: Machine<U>, mn: Method, n: Word, same: bool)
    requires m.apply == Apply && m.isTrue == LowByte && IsCompare(mn)
    ensures Separated(m, mn, n, same)
  {
    if !IsFloat(mn) {
      IntsSeparate(mn, n, same);
    } else if mn == FEQ || mn == FNEQ {
      EqualFloatsSeparate(mn, n, same);
    } else {
      OrderedFloatsSeparate(mn, n, same);
    }
    ApplySeparates(m, mn, Separator(mn, n, same), n);
  }

  lemma SelfSeparates<U>(m: Machine<U>, mn: Method, same: bool)
    requires m.apply == Apply && m.isTrue == LowByte && IsCompare(mn)
    ensures SelfSeparated(m, mn, same)
  {
    ZeroWithItself(mn);
    OneWithItself(mn);
    ApplySeparates(m, mn, 0, 0);
    ApplySeparates(m, mn, 1, 1);
  }

  lemma KonohaSeparates<U>(toInt: Word -> Word, toFloat: Word -> Word, other: (nat, State<U>) -> Option<State<U>>)
    ensures Separates(Konoha64(toInt, toFloat, other))
  {
    var m := Konoha64(toInt, toFloat, other);
    forall mn, n, same | IsCompare(mn) ensures Separated(m, mn, n, same) && SelfSeparated(m, mn, same) {
      NumberSeparates(m, mn, n, same);
      SelfSeparates(m, mn, same);
    }
  }

  // ---------------------------------------------------------------- two results at work

  lemma OutcomeTurned(mn: Method, n: Word, v: Word)
    requires Flip(mn) != mn
    ensures Apply(mn, n, v) == Apply(mn, v, n) <==> v == n
  {
  }

  /** On 64-bit words the tree left behind by an order comparison with a literal n on the left
      means the same exactly if the right operand has no value, or is n. */
  lemma {:induction false} SwappedOnKonoha<U>(m: Machine<U>, mn: Method, n: Word, r: Expr, shift: int, regs: Regs)
    requires Lawful(m) && m.apply == Apply && WellTyped(Bin(mn, NConst(n), r)) && Flip(mn) != mn
    ensures var e, y := Bin(mn, NConst(n), r), Eval(m, r, shift, regs);
      Eval(m, SwapTree(e), shift, regs) == Eval(m, e, shift, regs) <==> y.None? || y == Some(Num(n))
  {
    SwapTreeExactly(m, Bin(mn, NConst(n), r), shift, regs);
    IntValue(m, r, shift, regs);
    var y := Eval(m, r, shift, regs);
    if y.Some? { OutcomeTurned(mn, n, y.value.w); }
  }

  lemma {:induction false} LessTurned<U>(m: Machine<U>, e: Expr, regs: Regs)
    requires m.apply == Apply && e == Bin(LT, NConst(1), Local(0)) && regs[NC(0)] == 0
    ensures Eval(m, e, 0, regs) == Some(Bool(false)) && Eval(m, SwapTree(e), 0, regs) == Some(Bool(true))
  {
    assert SwapTree(e) == Bin(LT, Local(0), NConst(1));
    assert m.apply(LT, 1, 0) == Some(Bool(false)) && m.apply(LT, 0, 1) == Some(Bool(true));
  }

  /** So when 1 < x is compiled a second time, that code finds it true of x == 0, where it is
      false. */
  lemma {:induction false} CompiledTwiceMeansOther<U>(m: Machine<U>, e: Expr, s: State<U>)
    requires Lawful(m) && m.apply == Apply && e == Bin(LT, NConst(1), Local(0)) && s.regs[NC(0)] == 0
    ensures Eval(m, e, 0, s.regs) == Some(Bool(false))
    ensures var t := Run(Steps(m), Compile(SwapTree(e), 1, 0, 1), Some(s)); t.Some? && IsTrue(m, t.value.regs[NC(1)])
  {
    CompiledTwice(m, e, 0, 1, s);
    LessTurned(m, e, s.regs);
  }

  lemma DividedByOne(x: Word)
    ensures Apply(DIV, x, 1) == Some(Num(x))
  {
  }

  lemma DividedByZero(x: Word)
    ensures Apply(DIV, x, 0) == None
  {
  }

  lemma {:induction false} ZeroDivided<U>(m: Machine<U>, e: Expr, regs: Regs)
    requires m.apply == Apply && e == Bin(DIV, Local(0), NConst(0))
    ensures Eval(m, e, 0, regs) == None && Eval(m, Patch(e), 0, regs) == Some(Num(regs[NC(0)]))
  {
    var x := regs[NC(0)];
    PatchedBin(m, DIV, Local(0), NConst(0), 0, regs);
    DividedByOne(x);
    DividedByZero(x);
  }

  /** x / 0 with the zero as a literal has no value, but the code leaves x. */
  lemma {:induction false} ZeroDivisorOnKonoha<U>(m: Machine<U>, e: Expr, s: State<U>)
    requires Lawful(m) && m.apply == Apply && e == Bin(DIV, Local(0), NConst(0))
    ensures Eval(m, e, 0, s.regs) == None
    ensures var t := Run(Steps(m), Compile(e, 1, 0, 1), Some(s)); t.Some? && t.value.regs[NC(1)] == s.regs[NC(0)]
  {
    CompileCorrect(m, e, 0, 1, s);
    ZeroDivided(m, e, s.regs);
  }
}
