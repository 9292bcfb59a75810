/** Expression trees: what they mean, how they are written, and how much room they need. */
module ArithExpr {
  import opened ArithOps
  import opened ArithMachine

  // Paren is a pair of parentheses written in the expression, needed or not.
  datatype Expr =
    | Const(n: int)
    | Var(x: string)
    | Pre(pre: PreOp, arg: Expr)
    | Post(post: IncDec, arg: Expr)
    | Bin(bin: BinOp, left: Expr, right: Expr)
    | Then(left: Expr, right: Expr)
    | Paren(inner: Expr)

  /* ----- meaning ----- */

  datatype Result = Got(item: Item, store: Store) | Fault(store: Store)

  function Use(e: Effect): Result {
    match e
    case Good(v, s) => Got(Lit(v), s)
    case Bad(s) => Fault(s)
  }

  /** Post-order evaluation. A variable stays a reference until the operator above it is
      applied; both sides of && and || are evaluated. */
  function Eval(e: Expr, s: Store): Result {
    match e
    case Const(n) => Got(Lit(n), s)
    case Var(x) => Got(Ref(x), s)
    case Paren(a) => Eval(a, s)
    case Pre(op, a) =>
      (match Eval(a, s)
       case Fault(s1) => Fault(s1)
       case Got(i, s1) => Use(ApplyPrefix(op, i, s1)))
    case Post(op, a) =>
      (match Eval(a, s)
       case Fault(s1) => Fault(s1)
       case Got(i, s1) => Use(ApplyPostfix(op, i, s1)))
    case Bin(op, l, r) =>
      (match Eval(l, s)
       case Fault(s1) => Fault(s1)
       case Got(i, s1) =>
         match Eval(r, s1)
         case Fault(s2) => Fault(s2)
         case Got(j, s2) => Use(ApplyInfix(op, i, j, s2)))
    case Then(l, r) =>
      (match Eval(l, s)
       case Fault(s1) => Fault(s1)
       case Got(_, s1) => Eval(r, s1))
  }

  /** The tree in reverse Polish notation. */
  function Rpn(e: Expr): seq<Act> {
    match e
    case Const(n) => [Operand(Lit(n))]
    case Var(x) => [Operand(Ref(x))]
    case Paren(a) => Rpn(a)
    case Pre(op, a) => Rpn(a) + [Fired(Prefix(op))]
    case Post(op, a) => Rpn(a) + [Fired(Postfix(op))]
    case Bin(op, l, r) => Rpn(l) + Rpn(r) + [Fired(Infix(op))]
    case Then(l, r) => Rpn(l) + [Discarded] + Rpn(r)
  }

  /* ----- infix form ----- */

  // Unary - and + are written like the binary operators.
  function Spelling(op: Op): Op {
    if op == Prefix(Minus) then Infix(Calc(Sub))
    else if op == Prefix(Plus) then Infix(Calc(Add))
    else op
  }

  function Toks(e: Expr): (ts: seq<Tok>)
    ensures ts != []
  {
    match e
    case Const(n) => [Num(n)]
    case Var(x) => [Name(x)]
    case Paren(a) => [Sym(LParen)] + Toks(a) + [Sym(RParen)]
    case Pre(op, a) => [Sym(Spelling(Prefix(op)))] + Toks(a)
    case Post(op, a) => Toks(a) + [Sym(Postfix(op))]
    case Bin(op, l, r) => Toks(l) + [Sym(Infix(op))] + Toks(r)
    case Then(l, r) => Toks(l) + [Sym(Comma)] + Toks(r)
  }

  const ATOM: nat := 21

  function Level(e: Expr): nat {
    match e
    case Pre(_, _) => 19
    case Post(_, _) => 20
    case Bin(op, _, _) => BinPrec(op)
    case Then(_, _) => 0
    case _ => ATOM
  }

  /** Parentheses stand wherever C's precedence and associativity require them. */
  predicate WellFormed(e: Expr) {
    match e
    case Const(_) | Var(_) => true
    case Paren(a) => WellFormed(a)
    case Pre(_, a) => WellFormed(a) && Level(a) >= 19
    case Post(_, a) => WellFormed(a) && Level(a) >= 20
    case Bin(op, l, r) =>
      && WellFormed(l) && WellFormed(r)
      && (if RightLevel(BinPrec(op)) then Level(l) > BinPrec(op) && Level(r) >= BinPrec(op)
          else Level(l) >= BinPrec(op) && Level(r) > BinPrec(op))
    case Then(l, r) => WellFormed(l) && WellFormed(r) && Level(r) > 0
  }

  function LastOf(e: Expr): Last {
    match e
    case Const(_) | Var(_) => AfterOperand
    case Paren(_) => AfterOp(RParen)
    case Pre(_, a) => LastOf(a)
    case Post(op, _) => AfterOp(Postfix(op))
    case Bin(_, _, r) => LastOf(r)
    case Then(_, r) => LastOf(r)
  }

  /** The first token is an operand. */
  predicate LeadsWithOperand(e: Expr) {
    match e
    case Const(_) | Var(_) => true
    case Paren(_) | Pre(_, _) => false
    case Post(_, a) => LeadsWithOperand(a)
    case Bin(_, l, _) => LeadsWithOperand(l)
    case Then(l, _) => LeadsWithOperand(l)
  }

  // How many commas are followed by something else than an operand token.
  function BadCommas(e: Expr): nat {
    match e
    case Const(_) | Var(_) => 0
    case Paren(a) => BadCommas(a)
    case Pre(_, a) => BadCommas(a)
    case Post(_, a) => BadCommas(a)
    case Bin(_, l, r) => BadCommas(l) + BadCommas(r)
    case Then(l, r) => BadCommas(l) + BadCommas(r) + if LeadsWithOperand(r) then 0 else 1
  }

  function Max(a: nat, b: nat): nat { if a < b then b else a }

  /** The most operators on the operator stack at once while the tree is read. */
  function OpNeed(e: Expr): nat {
    match e
    case Const(_) | Var(_) => 0
    case Paren(a) => 1 + OpNeed(a)
    case Pre(_, a) => 1 + OpNeed(a)
    case Post(_, a) => Max(OpNeed(a), 1)
    case Bin(_, l, r) => Max(OpNeed(l), 1 + OpNeed(r))
    case Then(l, r) => Max(OpNeed(l), OpNeed(r))
  }

  /** The most operands on the operand stack at once while the tree is read. */
  function NumNeed(e: Expr): (n: nat)
    ensures n >= 1
  {
    match e
    case Const(_) | Var(_) => 1
    case Paren(a) => NumNeed(a)
    case Pre(_, a) => NumNeed(a)
    case Post(_, a) => NumNeed(a)
    case Bin(_, l, r) => Max(NumNeed(l), 1 + NumNeed(r))
    case Then(l, r) => Max(NumNeed(l), NumNeed(r))
  }
}
