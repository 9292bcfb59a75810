/** The operator table of the arithmetic evaluator and the meaning of each operator.
    Values are `long`s: every result that C would compute in a `long` is brought back
    into the 64-bit two's complement range by `ToLong`. */
module ArithOps {
  import opened Basics

  // The table `arithm_ops`, its 41 entries grouped by how they take operands.
  datatype Op = Postfix(inc: IncDec) | Prefix(pre: PreOp) | Infix(bin: BinOp) | LParen | RParen | Comma

  datatype IncDec = Inc | Dec

  datatype PreOp = Step(step: IncDec) | Minus | Plus | LogNot | BitNot

  // Assign is `=`; AssignBy(Add) is `+=`, and so on.
  datatype BinOp = Calc(op: CalcOp) | Assign | AssignBy(op: CalcOp)

  datatype CalcOp =
    | Exp
    | Mul | Div | Mod
    | Add | Sub
    | Lsh | Rsh
    | Lt | Le | Gt | Ge
    | Eq | Ne
    | BitAnd | BitXor | BitOr
    | LogAnd | LogOr

  function CalcPrec(op: CalcOp): (p: nat)
    ensures 8 <= p <= 18
  {
    match op
    case Exp => 18
    case Mul | Div | Mod => 17
    case Add | Sub => 16
    case Lsh | Rsh => 15
    case Lt | Le | Gt | Ge => 14
    case Eq | Ne => 13
    case BitAnd => 12
    case BitXor => 11
    case BitOr => 10
    case LogAnd => 9
    case LogOr => 8
  }

  function BinPrec(op: BinOp): (p: nat)
    ensures 7 <= p <= 18
  {
    match op
    case Calc(c) => CalcPrec(c)
    case _ => 7
  }

  function Prec(op: Op): (p: nat)
    ensures p <= 20
  {
    match op
    case Postfix(_) => 20
    case Prefix(_) => 19
    case Infix(b) => BinPrec(b)
    case _ => 0
  }

  /** Assignment, exponentiation and the prefix operators group from the right, and only
      they: associativity is a function of the precedence level. */
  predicate RightLevel(level: nat) { level == 7 || level == 18 || level == 19 }

  // The operators that have an `eval` function: all but the parentheses and the comma.
  predicate Evaluable(op: Op) { op.Postfix? || op.Prefix? || op.Infix? }

  predicate Unary(op: Op) { op.Postfix? || op.Prefix? }

  /* ----- long arithmetic ----- */

  const TWO63: int := 0x8000_0000_0000_0000
  const TWO64: int := 0x1_0000_0000_0000_0000

  predicate InLong(v: int) { -TWO63 <= v < TWO63 }

  /** Two's complement wrap-around: the only `long` that differs from v by a multiple of 2^64. */
  function ToLong(v: int): (r: int)
    ensures InLong(r)
    ensures InLong(v) ==> r == v
  {
    (v + TWO63) % TWO64 - TWO63
  }

  /** C division truncates toward zero. */
  function CDiv(a: int, b: int): int
    requires b != 0
  {
    var q := (if a < 0 then -a else a) / (if b < 0 then -b else b);
    if (a < 0) == (b < 0) then q else -q
  }

  function CMod(a: int, b: int): int
    requires b != 0
  {
    a - b * CDiv(a, b)
  }

  function Pow2(n: nat): (r: nat)
    ensures r > 0
  {
    if n == 0 then 1 else 2 * Pow2(n - 1)
  }

  // do_eval_exp
  function Power(a: int, b: int): int
    decreases b
  {
    if b < 0 then 0 else if b == 0 then 1 else ToLong(a * Power(a, b - 1))
  }

  function BitFn(op: CalcOp, x: int, y: int): int {
    match op
    case BitAnd => if x == 1 && y == 1 then 1 else 0
    case BitOr => if x == 1 || y == 1 then 1 else 0
    case _ => if x != y then 1 else 0
  }

  function Magnitude(a: int): nat { if a < 0 then -a - 1 else a }

  /** &, | and ^ on two's complement integers of any width, one bit at a time. */
  function Bitwise(op: CalcOp, a: int, b: int): int
    decreases Magnitude(a) + Magnitude(b)
  {
    if Magnitude(a) == 0 && Magnitude(b) == 0 then -BitFn(op, -a, -b)
    else BitFn(op, a % 2, b % 2) + 2 * Bitwise(op, a / 2, b / 2)
  }

  function Bool(b: bool): int { if b then 1 else 0 }

  /** The binary operators that only compute; None is "division by zero".
      The shift counts C leaves undefined are reduced modulo 64. */
  function Compute(op: CalcOp, a: int, b: int): Option<int> {
    match op
    case Exp => Some(Power(a, b))
    case Mul => Some(ToLong(a * b))
    case Div => if b == 0 then None else Some(ToLong(CDiv(a, b)))
    case Mod => if b == 0 then None else Some(CMod(a, b))
    case Add => Some(ToLong(a + b))
    case Sub => Some(ToLong(a - b))
    case Lsh => Some(ToLong(a * Pow2(b % 64)))
    case Rsh => Some(a / Pow2(b % 64))
    case Lt => Some(Bool(a < b))
    case Le => Some(Bool(a <= b))
    case Gt => Some(Bool(a > b))
    case Ge => Some(Bool(a >= b))
    case Eq => Some(Bool(a == b))
    case Ne => Some(Bool(a != b))
    case BitAnd | BitXor | BitOr => Some(Bitwise(op, a, b))
    case LogAnd => Some(Bool(a != 0 && b != 0))
    case LogOr => Some(Bool(a != 0 || b != 0))
  }

  /* ----- operands and the variable store ----- */

  /** An operand: a number, or a reference to a variable that is read only when an
      operator uses it. */
  datatype Item = Lit(v: int) | Ref(name: string)

  datatype Store = Store(vals: map<string, int>, readonly: set<string>)

  // long_value: an unset variable counts as 0.
  function Read(i: Item, s: Store): int {
    match i
    case Lit(v) => v
    case Ref(x) => if x in s.vals then s.vals[x] else 0
  }

  /** What an operator leaves: a value, or a failure; either way with the store as it then is. */
  datatype Effect = Good(v: int, store: Store) | Bad(store: Store)

  // eval_assign_val
  function Write(target: Item, v: int, s: Store): Effect {
    match target
    case Lit(_) => Bad(s)
    case Ref(x) => if x in s.readonly then Bad(s) else Good(v, s.(vals := s.vals[x := v]))
  }

  // do_eval_inc_dec
  function Bump(inc: IncDec, target: Item, s: Store): (int, Effect) {
    var v := Read(target, s);
    (v, Write(target, ToLong(if inc.Inc? then v + 1 else v - 1), s))
  }

  /** A postfix operator stores the new value and yields the old one. */
  function ApplyPostfix(inc: IncDec, a: Item, s: Store): Effect {
    var (v, e) := Bump(inc, a, s);
    if e.Good? then Good(v, e.store) else e
  }

  function ApplyPrefix(op: PreOp, a: Item, s: Store): Effect {
    match op
    case Step(inc) => Bump(inc, a, s).1
    case Minus => Good(ToLong(-Read(a, s)), s)
    case Plus => Good(Read(a, s), s)
    case LogNot => Good(Bool(Read(a, s) == 0), s)
    case BitNot => Good(-Read(a, s) - 1, s)
  }

  /** A compound assignment that divides by zero still stores 0 in its target before it fails. */
  function ApplyInfix(op: BinOp, a: Item, b: Item, s: Store): Effect {
    match op
    case Assign => Write(a, Read(b, s), s)
    case Calc(c) =>
      (match Compute(c, Read(a, s), Read(b, s))
       case Some(v) => Good(v, s)
       case None => Bad(s))
    case AssignBy(c) =>
      (match Compute(c, Read(a, s), Read(b, s))
       case Some(v) => Write(a, v, s)
       case None => Bad(Write(a, 0, s).store))
  }

  /* ----- what the primitive operators mean ----- */

  /** ToLong changes its argument by a multiple of 2^64 only. */
  lemma ToLongCongruent(v: int)
    ensures exists k :: v == ToLong(v) + k * TWO64
  {
    var k := (v + TWO63) / TWO64;
    assert v == ToLong(v) + k * TWO64;
  }

  /** Section 6.5.5 of ISO C: the quotient is truncated, and the remainder completes it
      with the sign of the dividend. */
  lemma DivModLaw(a: int, b: int)
    requires b != 0
    ensures a == b * CDiv(a, b) + CMod(a, b)
    ensures Magnitude2(CMod(a, b)) < Magnitude2(b)
    ensures CMod(a, b) != 0 ==> ((CMod(a, b) < 0) == (a < 0))
  {
    var x: int, y: int := Magnitude2(a), Magnitude2(b);
    var q: int := x / y;
    assert x == y * q + x % y;
    if (a < 0) == (b < 0) {
      assert b * CDiv(a, b) == b * q;
      assert b * q == if b < 0 then -(y * q) else y * q;
    } else {
      assert b * CDiv(a, b) == b * -q;
      assert b * -q == if b < 0 then y * q else -(y * q);
    }
  }

  function Magnitude2(a: int): nat { if a < 0 then -a else a }

  function BitAt(a: int, i: nat): int
    decreases i
  {
    if i == 0 then a % 2 else BitAt(a / 2, i - 1)
  }

  lemma {:induction false} BitAtUnit(a: int, i: nat)
    requires a == 0 || a == -1
    ensures BitAt(a, i) == -a
  {
    if i > 0 { BitAtUnit(a / 2, i - 1); }
  }

  lemma LowBit(low: int, rest: int)
    requires low == 0 || low == 1
    ensures (low + 2 * rest) % 2 == low && (low + 2 * rest) / 2 == rest
  {
  }

  /** Bit i of a bitwise result is the bit function of bit i of both operands. */
  lemma {:induction false} BitwisePointwise(op: CalcOp, a: int, b: int, i: nat)
    ensures BitAt(Bitwise(op, a, b), i) == BitFn(op, BitAt(a, i), BitAt(b, i))
    decreases i
  {
    if Magnitude(a) == 0 && Magnitude(b) == 0 {
      BitAtUnit(a, i);
      BitAtUnit(b, i);
      BitAtUnit(Bitwise(op, a, b), i);
    } else {
      LowBit(BitFn(op, a % 2, b % 2), Bitwise(op, a / 2, b / 2));
      if i > 0 { BitwisePointwise(op, a / 2, b / 2, i - 1); }
    }
  }
}
