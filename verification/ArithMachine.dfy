/** The two-stack machine of `shunt_op` and `arithm_expand` as functions on values: the
    specification that the imperative `Evaluator` is proved against. */
module ArithMachine {
  import opened Basics
  import opened ArithOps

  const MAXSTACK: nat := 64

  /** Tokens, with every number read and every ++/-- already known as prefix or postfix. */
  datatype Tok = Num(n: int) | Name(x: string) | Sym(op: Op)

  // `lastop`: the start marker, NULL after an operand, or the last operator token.
  datatype Last = AtStart | AfterOperand | AfterOp(op: Op)

  // What the machine has done so far, in order: its output in reverse Polish notation.
  datatype Act = Operand(item: Item) | Fired(op: Op) | Discarded

  datatype Machine = Machine(ops: seq<Op>, nums: seq<Item>, store: Store, last: Last, log: seq<Act>)

  datatype Outcome = Run(m: Machine) | Err(store: Store)

  /* ----- one operator ----- */

  /** Pops the operator on top and applies it to the operands on top. */
  function Fire(m: Machine): Outcome
    requires m.ops != []
  {
    var n, k := |m.ops|, |m.nums|;
    var op := m.ops[n - 1];
    if k == 0 then Err(m.store)
    else match op
      case Postfix(inc) => Settle(ApplyPostfix(inc, m.nums[k - 1], m.store), m, k - 1)
      case Prefix(pre) => Settle(ApplyPrefix(pre, m.nums[k - 1], m.store), m, k - 1)
      case Infix(bin) =>
        if k == 1 then Err(m.store)
        else Settle(ApplyInfix(bin, m.nums[k - 2], m.nums[k - 1], m.store), m, k - 2)
      case _ => Err(m.store)
  }

  /** The state after the top operator has produced e from the operands above position k. */
  function Settle(e: Effect, m: Machine, k: nat): Outcome
    requires m.ops != [] && k <= |m.nums|
  {
    match e
    case Bad(s) => Err(s)
    case Good(v, s) =>
      var n := |m.ops|;
      Run(m.(ops := m.ops[..n - 1], nums := m.nums[..k] + [Lit(v)], store := s,
             log := m.log + [Fired(m.ops[n - 1])]))
  }

  function PushOp(m: Machine, op: Op): Outcome {
    if |m.ops| >= MAXSTACK then Err(m.store) else Run(m.(ops := m.ops + [op]))
  }

  function PushNum(m: Machine, i: Item): Outcome {
    if |m.nums| >= MAXSTACK then Err(m.store)
    else Run(m.(nums := m.nums + [i], log := m.log + [Operand(i)]))
  }

  /** The new operator makes the one on top of the stack fire first. */
  predicate Yields(op: Op, top: Op) {
    if RightLevel(Prec(op)) then Prec(op) < Prec(top) else Prec(op) <= Prec(top)
  }

  function FireYielding(m: Machine, op: Op): Outcome
    decreases |m.ops|
  {
    if m.ops == [] || !Yields(op, m.ops[|m.ops| - 1]) then Run(m)
    else match Fire(m)
      case Err(s) => Err(s)
      case Run(m') => FireYielding(m', op)
  }

  function FireToParen(m: Machine): Outcome
    decreases |m.ops|
  {
    if m.ops == [] || m.ops[|m.ops| - 1] == LParen then Run(m)
    else match Fire(m)
      case Err(s) => Err(s)
      case Run(m') => FireToParen(m')
  }

  /** Fires until h operators are left; a `(` among them is an error. */
  function DrainTo(m: Machine, h: nat): Outcome
    decreases |m.ops|
  {
    if |m.ops| <= h then Run(m)
    else match Fire(m)
      case Err(s) => Err(s)
      case Run(m') => DrainTo(m', h)
  }

  function FireThen(r: Outcome, next: Machine -> Outcome): Outcome {
    match r
    case Err(s) => Err(s)
    case Run(m) => next(m)
  }

  // One turn of each of these loops.
  lemma YieldTurn(m: Machine, op: Op)
    ensures FireYielding(m, op) ==
            if m.ops == [] || !Yields(op, m.ops[|m.ops| - 1]) then Run(m)
            else FireThen(Fire(m), m1 => FireYielding(m1, op))
    ensures m.ops != [] && Fire(m).Run? ==> |Fire(m).m.ops| < |m.ops|
  {}

  lemma ParenTurn(m: Machine)
    ensures FireToParen(m) ==
            if m.ops == [] || m.ops[|m.ops| - 1] == LParen then Run(m) else FireThen(Fire(m), m1 => FireToParen(m1))
    ensures m.ops != [] && Fire(m).Run? ==> |Fire(m).m.ops| < |m.ops|
  {}

  lemma DrainTurn(m: Machine)
    ensures DrainTo(m, 0) == if m.ops == [] then Run(m) else FireThen(Fire(m), m1 => DrainTo(m1, 0))
    ensures m.ops != [] && Fire(m).Run? ==> |Fire(m).m.ops| < |m.ops|
  {}

  // shunt_op
  function Shunt(m: Machine, op: Op): Outcome {
    if op == LParen then PushOp(m, op)
    else if op == RParen || op == Comma then
      match FireToParen(m)
      case Err(s) => Err(s)
      case Run(m') =>
        if op == Comma then Run(m')
        else if m'.ops == [] then Err(m'.store)
        else Run(m'.(ops := m'.ops[..|m'.ops| - 1]))
    else
      match FireYielding(m, op)
      case Err(s) => Err(s)
      case Run(m') => PushOp(m', op)
  }

  /* ----- tokens ----- */

  /** An operator may follow what came last: `lastop` is NULL, `)` or a postfix operator. */
  predicate OperandDone(last: Last) {
    last.AfterOperand? || (last.AfterOp? && (last.op == RParen || last.op.Postfix?))
  }

  /** Where an operand is expected, - and + are unary and other binary operators are errors. */
  function Resolve(last: Last, op: Op): Option<Op> {
    if OperandDone(last) then Some(op)
    else if op == Infix(Calc(Sub)) then Some(Prefix(Minus))
    else if op == Infix(Calc(Add)) then Some(Prefix(Plus))
    else if op == LParen || Unary(op) then Some(op)
    else None
  }

  // DISCARD_COMMA
  function DiscardComma(m: Machine): Machine {
    if m.last == AfterOp(Comma) && m.nums != []
    then m.(nums := m.nums[..|m.nums| - 1], log := m.log + [Discarded])
    else m
  }

  function WithLast(r: Outcome, last: Last): Outcome {
    match r
    case Err(s) => Err(s)
    case Run(m) => Run(m.(last := last))
  }

  /** One token of the main loop of `arithm_expand`. A number after a comma with nothing to
      discard is an error; a name is not, because its branch clears the error flag again. */
  function StepTok(m: Machine, t: Tok): Outcome {
    match t
    case Num(n) =>
      if m.last == AfterOp(Comma) && m.nums == [] then Err(m.store)
      else WithLast(PushNum(DiscardComma(m), Lit(n)), AfterOperand)
    case Name(x) => WithLast(PushNum(DiscardComma(m), Ref(x)), AfterOperand)
    case Sym(raw) =>
      match Resolve(m.last, raw)
      case None => Err(m.store)
      case Some(op) => WithLast(Shunt(m, op), AfterOp(op))
  }

  function RunToks(m: Machine, ts: seq<Tok>): Outcome
    decreases |ts|
  {
    if ts == [] then Run(m)
    else match StepTok(m, ts[0])
      case Err(s) => Err(s)
      case Run(m') => RunToks(m', ts[1..])
  }

  function Start(s: Store): Machine { Machine([], [], s, AtStart, []) }

  // Value's log is the reverse Polish output that produced it.
  datatype Answer = Value(v: int, store: Store, log: seq<Act>) | Blank(store: Store) | Failed(store: Store)

  function Finish(r: Outcome): Answer {
    match r
    case Err(s) => Failed(s)
    case Run(m) =>
      match DrainTo(m, 0)
      case Err(s) => Failed(s)
      case Run(m') =>
        if m'.nums == [] then Blank(m'.store)
        else if |m'.nums| != 1 then Failed(m'.store)
        else Value(Read(m'.nums[0], m'.store), m'.store, m'.log)
  }

  // arithm_expand
  function Expand(ts: seq<Tok>, s: Store): Answer { Finish(RunToks(Start(s), ts)) }

  /* ----- composition ----- */

  function RunNext(r: Outcome, ts: seq<Tok>): Outcome {
    match r
    case Err(s) => Err(s)
    case Run(m) => RunToks(m, ts)
  }

  function DrainNext(r: Outcome, h: nat): Outcome {
    match r
    case Err(s) => Err(s)
    case Run(m) => DrainTo(m, h)
  }

  lemma {:induction false} RunAppend(m: Machine, a: seq<Tok>, b: seq<Tok>)
    ensures RunToks(m, a + b) == RunNext(RunToks(m, a), b)
    decreases |a|
  {
    if a == [] {
      assert a + b == b;
    } else {
      assert (a + b)[0] == a[0] && (a + b)[1..] == a[1..] + b;
      match StepTok(m, a[0])
      case Err(_) =>
      case Run(m') => RunAppend(m', a[1..], b);
    }
  }

  lemma {:induction false} DrainSplit(m: Machine, h: nat, k: nat)
    requires h <= k
    ensures DrainTo(m, h) == DrainNext(DrainTo(m, k), h)
    decreases |m.ops|
  {
    if |m.ops| > k {
      match Fire(m)
      case Err(_) =>
      case Run(m') => DrainSplit(m', h, k);
    }
  }
}
