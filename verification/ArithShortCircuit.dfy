/** `&&` and `||` as sections 6.5.13 and 6.5.14 of ISO C describe them: the right operand is
    evaluated only where the left one does not decide. The shell evaluates both. */
module ArithShortCircuit {
  import opened ArithOps
  import opened ArithMachine
  import opened ArithExpr
  import opened ArithTree

  predicate Logical(op: BinOp) { op == Calc(LogAnd) || op == Calc(LogOr) }

  // A left operand with the value v decides the result, which is then Bool(op == Calc(LogOr)).
  predicate Decides(op: BinOp, v: int) { if op == Calc(LogAnd) then v == 0 else v != 0 }

  /** Evaluation with sequence points: the left operand of a logical operator is read before the
      right one is evaluated, if that is evaluated at all. */
  function EvalC(e: Expr, s: Store): Result {
    match e
    case Const(n) => Got(Lit(n), s)
    case Var(x) => Got(Ref(x), s)
    case Paren(a) => EvalC(a, s)
    case Pre(op, a) =>
      (match EvalC(a, s)
       case Fault(s1) => Fault(s1)
       case Got(i, s1) => Use(ApplyPrefix(op, i, s1)))
    case Post(op, a) =>
      (match EvalC(a, s)
       case Fault(s1) => Fault(s1)
       case Got(i, s1) => Use(ApplyPostfix(op, i, s1)))
    case Bin(op, l, r) =>
      (match EvalC(l, s)
       case Fault(s1) => Fault(s1)
       case Got(i, s1) =>
         if Logical(op) && Decides(op, Read(i, s1)) then Got(Lit(Bool(op == Calc(LogOr))), s1)
         else match EvalC(r, s1)
           case Fault(s2) => Fault(s2)
           case Got(j, s2) =>
             if Logical(op) then Got(Lit(Bool(Read(j, s2) != 0)), s2) else Use(ApplyInfix(op, i, j, s2)))
    case Then(l, r) =>
      (match EvalC(l, s)
       case Fault(s1) => Fault(s1)
       case Got(_, s1) => EvalC(r, s1))
  }

  /** The right operand, which C does not evaluate, has neither an effect nor a failure. */
  predicate Harmless(r: Expr, s: Store) { Eval(r, s).Got? && Eval(r, s).store == s }

  /** The right operand does not turn a left one that has not decided into one that has, unless
      that makes no difference. */
  predicate LeavesLeft(op: BinOp, i: Item, r: Result) {
    r.Got? && Decides(op, Read(i, r.store)) ==> Decides(op, Read(r.item, r.store))
  }

  /** At every logical operator that C comes to, the order makes no difference. */
  predicate Orderly(e: Expr, s: Store)
    decreases e, 0
  {
    match e
    case Const(_) | Var(_) => true
    case Paren(a) => Orderly(a, s)
    case Pre(_, a) => Orderly(a, s)
    case Post(_, a) => Orderly(a, s)
    case Bin(op, l, r) => Orderly(l, s) && (EvalC(l, s).Got? ==> OrderlyAt(op, EvalC(l, s).item, r, EvalC(l, s).store))
    case Then(l, r) => Orderly(l, s) && (EvalC(l, s).Got? ==> Orderly(r, EvalC(l, s).store))
  }

  predicate OrderlyAt(op: BinOp, i: Item, r: Expr, s: Store)
    decreases r, 1
  {
    if Logical(op) && Decides(op, Read(i, s)) then Harmless(r, s)
    else Orderly(r, s) && (Logical(op) ==> LeavesLeft(op, i, EvalC(r, s)))
  }

  /** Then the shell and C agree on value, variables and failure. */
  lemma {:induction false} OrderlyAgrees(e: Expr, s: Store)
    requires Orderly(e, s)
    ensures Eval(e, s) == EvalC(e, s)
  {
    hide ApplyPrefix, ApplyPostfix, Power, Bitwise, CDiv, CMod, ToLong, Pow2, Write;
    match e
    case Const(_) =>
    case Var(_) =>
    case Paren(a) => OrderlyAgrees(a, s);
    case Pre(_, a) => OrderlyAgrees(a, s);
    case Post(_, a) => OrderlyAgrees(a, s);
    case Bin(op, l, r) =>
      OrderlyAgrees(l, s);
      if EvalC(l, s).Got? {
        var Got(i, s1) := EvalC(l, s);
        if !(Logical(op) && Decides(op, Read(i, s1))) { OrderlyAgrees(r, s1); }
      }
    case Then(l, r) =>
      OrderlyAgrees(l, s);
      if EvalC(l, s).Got? { OrderlyAgrees(r, EvalC(l, s).store); }
  }

  /** A logical operator whose operands are evaluated as in C is so itself if and only if the
      order makes no difference at it: when the left operand decides, the right one has neither
      an effect nor a failure, and otherwise it does not change the left one to deciding. */
  lemma LogicalExact(op: BinOp, l: Expr, r: Expr, s: Store)
    requires Logical(op) && Orderly(l, s)
    requires EvalC(l, s).Got? && !Decides(op, Read(EvalC(l, s).item, EvalC(l, s).store))
             ==> Orderly(r, EvalC(l, s).store)
    ensures Eval(Bin(op, l, r), s) == EvalC(Bin(op, l, r), s) <==> Orderly(Bin(op, l, r), s)
  {
    hide ApplyPrefix, ApplyPostfix, Power, Bitwise, CDiv, CMod, ToLong, Pow2, Write;
    OrderlyAgrees(l, s);
    if EvalC(l, s).Got? {
      var Got(i, s1) := EvalC(l, s);
      if !Decides(op, Read(i, s1)) { OrderlyAgrees(r, s1); }
    }
  }

  /** Both sides are evaluated: `0 && (x = 1)` is 0, but sets x. */
  lemma BothSidesRun(x: string, s: Store)
    requires x !in s.readonly && Read(Ref(x), s) != 1
    ensures var e := Bin(Calc(LogAnd), Const(0), Paren(Bin(Assign, Var(x), Const(1))));
            && Eval(e, s) == Got(Lit(0), s.(vals := s.vals[x := 1]))
            && EvalC(e, s) == Got(Lit(0), s) != Eval(e, s)
  {
    var a := Bin(Assign, Var(x), Const(1));
    assert Eval(Var(x), s) == Got(Ref(x), s) && Eval(Const(1), s) == Got(Lit(1), s);
    assert Eval(Paren(a), s) == Eval(a, s) == Got(Lit(1), s.(vals := s.vals[x := 1]));
    assert Eval(Const(0), s) == Got(Lit(0), s) == EvalC(Const(0), s);
  }

  /* ----- expressions on which the order never matters ----- */

  // No assignment, no increment or decrement, and no division.
  predicate Still(e: Expr) {
    match e
    case Const(_) | Var(_) => true
    case Paren(a) => Still(a)
    case Pre(op, a) => !op.Step? && Still(a)
    case Post(_, _) => false
    case Bin(op, l, r) => op.Calc? && op != Calc(Div) && op != Calc(Mod) && Still(l) && Still(r)
    case Then(l, r) => Still(l) && Still(r)
  }

  // Every right operand of a logical operator is still.
  predicate StillRight(e: Expr) {
    match e
    case Const(_) | Var(_) => true
    case Paren(a) => StillRight(a)
    case Pre(_, a) => StillRight(a)
    case Post(_, a) => StillRight(a)
    case Bin(op, l, r) => StillRight(l) && StillRight(r) && (Logical(op) ==> Still(r))
    case Then(l, r) => StillRight(l) && StillRight(r)
  }

  lemma {:induction false} StillHarmless(e: Expr, s: Store)
    requires Still(e)
    ensures Harmless(e, s)
  {
    match e
    case Const(_) =>
    case Var(_) =>
    case Paren(a) => StillHarmless(a, s);
    case Pre(_, a) => StillHarmless(a, s);
    case Bin(_, l, r) => StillHarmless(l, s); StillHarmless(r, s);
    case Then(l, r) => StillHarmless(l, s); StillHarmless(r, s);
  }

  lemma {:induction false} StillRightOrderly(e: Expr, s: Store)
    requires StillRight(e)
    ensures Orderly(e, s)
  {
    match e
    case Const(_) =>
    case Var(_) =>
    case Paren(a) => StillRightOrderly(a, s);
    case Pre(_, a) => StillRightOrderly(a, s);
    case Post(_, a) => StillRightOrderly(a, s);
    case Bin(op, l, r) =>
      StillRightOrderly(l, s);
      if EvalC(l, s).Got? {
        StillRightOrderly(r, EvalC(l, s).store);
        if Logical(op) {
          StillHarmless(r, EvalC(l, s).store);
          OrderlyAgrees(r, EvalC(l, s).store);
        }
      }
    case Then(l, r) =>
      StillRightOrderly(l, s);
      if EvalC(l, s).Got? { StillRightOrderly(r, EvalC(l, s).store); }
  }

  // The reply by C's evaluation; the operators are applied in the shell's order.
  function AnsweredC(e: Expr, s: Store): Answer {
    match EvalC(e, s)
    case Fault(s1) => Failed(s1)
    case Got(i, s1) => Value(Read(i, s1), s1, Rpn(e))
  }

  /** The expansion of a tree has C's value, variables and failure wherever the order makes no
      difference, and so for every tree whose right operands of `&&` and `||` neither store nor
      divide. */
  lemma ExpandAsC(e: Expr, s: Store)
    requires WellFormed(e) && Supported(e) && (Orderly(e, s) || StillRight(e))
    ensures Expand(Toks(e), s) == AnsweredC(e, s)
  {
    if StillRight(e) { StillRightOrderly(e, s); }
    OrderlyAgrees(e, s);
    hide Expand, Toks, WellFormed, Supported, Rpn, Eval, EvalC;
    ExpandTree(e, s);
  }
}
