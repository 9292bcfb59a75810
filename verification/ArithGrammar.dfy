/** The grammar of expressions, one nonterminal for each level of section 6.5 of ISO C with `**`
    between the multiplicative and the unary level: which operators bind tighter, and which group
    from the left. */
module ArithGrammar {
  import opened ArithOps
  import opened ArithMachine
  import opened ArithExpr
  import opened ArithTree

  datatype Sort =
    | Primary | PostfixExpr | UnaryExpr | PowerExpr | Multiplicative | Additive | ShiftExpr | Relational
    | Equality | AndExpr | ExclusiveOr | InclusiveOr | LogicalAnd | LogicalOr | Assignment | Expression

  predicate AnyOf(e: Expr, ops: set<CalcOp>) { e.Bin? && e.bin.Calc? && e.bin.op in ops }

  // A level whose operators group from the left: operands of the level or of the next one.
  predicate LeftLevel(e: Expr, ops: set<CalcOp>, level: Sort, next: Sort)
    requires Rank(next) < Rank(level)
    decreases e, Rank(level), 0
  {
    Derives(next, e) || (AnyOf(e, ops) && Derives(level, e.left) && Derives(next, e.right))
  }

  // How far up the grammar a nonterminal is.
  function Rank(n: Sort): nat {
    match n
    case Primary => 0
    case PostfixExpr => 1
    case UnaryExpr => 2
    case PowerExpr => 3
    case Multiplicative => 4
    case Additive => 5
    case ShiftExpr => 6
    case Relational => 7
    case Equality => 8
    case AndExpr => 9
    case ExclusiveOr => 10
    case InclusiveOr => 11
    case LogicalAnd => 12
    case LogicalOr => 13
    case Assignment => 14
    case Expression => 15
  }

  /** The nonterminal n derives e. What stands left of an assignment operator need not be a
      variable here: that is looked at when it is applied. */
  predicate Derives(n: Sort, e: Expr)
    decreases e, Rank(n), 1
  {
    match n
    case Primary => Primaries(e)
    case PostfixExpr => Postfixes(e)
    case UnaryExpr => Unaries(e)
    case PowerExpr => Powers(e)
    case Multiplicative => LeftLevel(e, {Mul, Div, Mod}, Multiplicative, PowerExpr)
    case Additive => LeftLevel(e, {Add, Sub}, Additive, Multiplicative)
    case ShiftExpr => LeftLevel(e, {Lsh, Rsh}, ShiftExpr, Additive)
    case Relational => LeftLevel(e, {Lt, Le, Gt, Ge}, Relational, ShiftExpr)
    case Equality => LeftLevel(e, {Eq, Ne}, Equality, Relational)
    case AndExpr => LeftLevel(e, {BitAnd}, AndExpr, Equality)
    case ExclusiveOr => LeftLevel(e, {BitXor}, ExclusiveOr, AndExpr)
    case InclusiveOr => LeftLevel(e, {BitOr}, InclusiveOr, ExclusiveOr)
    case LogicalAnd => LeftLevel(e, {LogAnd}, LogicalAnd, InclusiveOr)
    case LogicalOr => LeftLevel(e, {LogOr}, LogicalOr, LogicalAnd)
    case Assignment => Assigns(e)
    case Expression => Commas(e)
  }

  predicate Primaries(e: Expr)
    decreases e, Rank(Primary), 0
  {
    e.Const? || e.Var? || (e.Paren? && Derives(Expression, e.inner))
  }

  predicate Postfixes(e: Expr)
    decreases e, Rank(PostfixExpr), 0
  {
    Derives(Primary, e) || (e.Post? && Derives(PostfixExpr, e.arg))
  }

  predicate Unaries(e: Expr)
    decreases e, Rank(UnaryExpr), 0
  {
    Derives(PostfixExpr, e) || (e.Pre? && Derives(UnaryExpr, e.arg))
  }

  // `**` groups from the right.
  predicate Powers(e: Expr)
    decreases e, Rank(PowerExpr), 0
  {
    Derives(UnaryExpr, e) || (AnyOf(e, {Exp}) && Derives(UnaryExpr, e.left) && Derives(PowerExpr, e.right))
  }

  // So do `=` and the compound assignments.
  predicate Assigns(e: Expr)
    decreases e, Rank(Assignment), 0
  {
    || Derives(LogicalOr, e)
    || (e.Bin? && !e.bin.Calc? && Derives(LogicalOr, e.left) && Derives(Assignment, e.right))
  }

  predicate Commas(e: Expr)
    decreases e, Rank(Expression), 0
  {
    Derives(Assignment, e) || (e.Then? && Derives(Expression, e.left) && Derives(Assignment, e.right))
  }

  // The loosest level of the operator table that a nonterminal takes in.
  function Least(n: Sort): nat {
    match n
    case Primary => 21
    case PostfixExpr => 20
    case UnaryExpr => 19
    case PowerExpr => 18
    case Multiplicative => 17
    case Additive => 16
    case ShiftExpr => 15
    case Relational => 14
    case Equality => 13
    case AndExpr => 12
    case ExclusiveOr => 11
    case InclusiveOr => 10
    case LogicalAnd => 9
    case LogicalOr => 8
    case Assignment => 7
    case Expression => 0
  }

  /** The trees that are written with the parentheses their operators need, by the table, are the
      ones that the grammar derives. */
  lemma {:induction false} GrammarIs(n: Sort, e: Expr)
    ensures Derives(n, e) <==> WellFormed(e) && Level(e) >= Least(n)
    decreases e, Rank(n), 1
  {
    hide WellFormed, Level, LeftLevel, Primaries, Postfixes, Unaries, Powers, Assigns, Commas, CalcPrec;
    match n
    case Primary => GrammarTight(n, e);
    case PostfixExpr => GrammarTight(n, e);
    case UnaryExpr => GrammarTight(n, e);
    case PowerExpr => GrammarLoose(n, e);
    case Multiplicative => RowOf(n, {Mul, Div, Mod}); GrammarLeft(e, {Mul, Div, Mod}, n, PowerExpr);
    case Additive => RowOf(n, {Add, Sub}); GrammarLeft(e, {Add, Sub}, n, Multiplicative);
    case ShiftExpr => RowOf(n, {Lsh, Rsh}); GrammarLeft(e, {Lsh, Rsh}, n, Additive);
    case Relational => RowOf(n, {Lt, Le, Gt, Ge}); GrammarLeft(e, {Lt, Le, Gt, Ge}, n, ShiftExpr);
    case Equality => RowOf(n, {Eq, Ne}); GrammarLeft(e, {Eq, Ne}, n, Relational);
    case AndExpr => RowOf(n, {BitAnd}); GrammarLeft(e, {BitAnd}, n, Equality);
    case ExclusiveOr => RowOf(n, {BitXor}); GrammarLeft(e, {BitXor}, n, AndExpr);
    case InclusiveOr => RowOf(n, {BitOr}); GrammarLeft(e, {BitOr}, n, ExclusiveOr);
    case LogicalAnd => RowOf(n, {LogAnd}); GrammarLeft(e, {LogAnd}, n, InclusiveOr);
    case LogicalOr => RowOf(n, {LogOr}); GrammarLeft(e, {LogOr}, n, LogicalAnd);
    case Assignment => GrammarLoose(n, e);
    case Expression => GrammarLoose(n, e);
  }

  // The operators of one row of the table.
  lemma RowOf(n: Sort, ops: set<CalcOp>)
    requires
      || (n == Multiplicative && ops == {Mul, Div, Mod}) || (n == Additive && ops == {Add, Sub})
      || (n == ShiftExpr && ops == {Lsh, Rsh}) || (n == Relational && ops == {Lt, Le, Gt, Ge})
      || (n == Equality && ops == {Eq, Ne}) || (n == AndExpr && ops == {BitAnd})
      || (n == ExclusiveOr && ops == {BitXor}) || (n == InclusiveOr && ops == {BitOr})
      || (n == LogicalAnd && ops == {LogAnd}) || (n == LogicalOr && ops == {LogOr})
    ensures forall c :: c in ops <==> CalcPrec(c) == Least(n)
  {}

  lemma {:induction false} GrammarLeft(e: Expr, ops: set<CalcOp>, n: Sort, next: Sort)
    requires Rank(next) < Rank(n) && Least(next) == Least(n) + 1 && 8 <= Least(n) <= 17
    requires forall c :: c in ops <==> CalcPrec(c) == Least(n)
    ensures LeftLevel(e, ops, n, next) <==> WellFormed(e) && Level(e) >= Least(n)
    decreases e, Rank(n), 0
  {
    hide Derives, CalcPrec;
    GrammarIs(next, e);
    if e.Bin? { GrammarIs(n, e.left); GrammarIs(next, e.right); }
  }

  lemma {:induction false} GrammarTight(n: Sort, e: Expr)
    ensures n == Primary ==> (Primaries(e) <==> WellFormed(e) && Level(e) >= Least(n))
    ensures n == PostfixExpr ==> (Postfixes(e) <==> WellFormed(e) && Level(e) >= Least(n))
    ensures n == UnaryExpr ==> (Unaries(e) <==> WellFormed(e) && Level(e) >= Least(n))
    decreases e, Rank(n), 0
  {
    hide Derives, LeftLevel, CalcPrec, Powers, Assigns, Commas;
    match n
    case Primary => if e.Paren? { GrammarIs(Expression, e.inner); }
    case PostfixExpr =>
      GrammarIs(Primary, e);
      if e.Post? { GrammarIs(PostfixExpr, e.arg); }
    case UnaryExpr =>
      GrammarIs(PostfixExpr, e);
      if e.Pre? { GrammarIs(UnaryExpr, e.arg); }
    case _ =>
  }

  lemma {:induction false} GrammarLoose(n: Sort, e: Expr)
    ensures n == PowerExpr ==> (Powers(e) <==> WellFormed(e) && Level(e) >= Least(n))
    ensures n == Assignment ==> (Assigns(e) <==> WellFormed(e) && Level(e) >= Least(n))
    ensures n == Expression ==> (Commas(e) <==> WellFormed(e) && Level(e) >= Least(n))
    decreases e, Rank(n), 0
  {
    hide Derives, LeftLevel, Primaries, Postfixes, Unaries;
    match n
    case PowerExpr =>
      GrammarIs(UnaryExpr, e);
      if e.Bin? { GrammarIs(UnaryExpr, e.left); GrammarIs(PowerExpr, e.right); }
    case Assignment =>
      GrammarIs(LogicalOr, e);
      if e.Bin? { GrammarIs(LogicalOr, e.left); GrammarIs(Assignment, e.right); }
    case Expression =>
      GrammarIs(Assignment, e);
      if e.Then? { GrammarIs(Expression, e.left); GrammarIs(Assignment, e.right); }
    case _ =>
  }

  /** A tree is written with the parentheses it needs if and only if the grammar derives it. */
  lemma WellFormedIsDerived(e: Expr)
    ensures WellFormed(e) <==> Derives(Expression, e)
  {
    GrammarIs(Expression, e);
  }

  /* ----- which operand goes to which operator ----- */

  predicate Atomic(e: Expr) { e.Const? || e.Var? }

  /** Two operators between three operands: exactly one of the two groupings is derived from the
      grammar, and its value is what the expansion gives. */
  lemma ThreeOperands(a: Expr, o1: BinOp, b: Expr, o2: BinOp, c: Expr, s: Store)
    requires Atomic(a) && Atomic(b) && Atomic(c)
    ensures var l, r := Bin(o2, Bin(o1, a, b), c), Bin(o1, a, Bin(o2, b, c));
            && (Derives(Expression, l) <==> !Derives(Expression, r))
            && Expand(Toks(a) + [Sym(Infix(o1))] + Toks(b) + [Sym(Infix(o2))] + Toks(c), s)
               == Answered(if Derives(Expression, l) then l else r, s)
  {
    var l, r := Bin(o2, Bin(o1, a, b), c), Bin(o1, a, Bin(o2, b, c));
    WellFormedIsDerived(l);
    WellFormedIsDerived(r);
    SameToks(a, o1, b, o2, c);
    OneGrouping(a, o1, b, o2, c);
    if Derives(Expression, l) {
      hide Expand, Answered, Toks, WellFormed, Derives;
      ExpandTree(l, s);
    } else {
      hide Expand, Answered, Toks, WellFormed, Derives;
      ExpandTree(r, s);
    }
  }

  lemma SameToks(a: Expr, o1: BinOp, b: Expr, o2: BinOp, c: Expr)
    ensures var ts := Toks(a) + [Sym(Infix(o1))] + Toks(b) + [Sym(Infix(o2))] + Toks(c);
            Toks(Bin(o2, Bin(o1, a, b), c)) == ts && Toks(Bin(o1, a, Bin(o2, b, c))) == ts
  {
    hide Toks;
    ToksBin(o1, a, b);
    ToksBin(o2, b, c);
    ToksBin(o2, Bin(o1, a, b), c);
    ToksBin(o1, a, Bin(o2, b, c));
    Regrouped(Toks(a) + [Sym(Infix(o1))], Toks(b), [Sym(Infix(o2))], Toks(c));
  }

  lemma ToksBin(op: BinOp, l: Expr, r: Expr)
    ensures Toks(Bin(op, l, r)) == Toks(l) + [Sym(Infix(op))] + Toks(r)
  {}

  lemma Regrouped(a: seq<Tok>, b: seq<Tok>, c: seq<Tok>, d: seq<Tok>)
    ensures a + (b + c + d) == a + b + c + d
  {}

  lemma OneGrouping(a: Expr, o1: BinOp, b: Expr, o2: BinOp, c: Expr)
    requires Atomic(a) && Atomic(b) && Atomic(c)
    ensures var l, r := Bin(o2, Bin(o1, a, b), c), Bin(o1, a, Bin(o2, b, c));
            && (WellFormed(l) <==> !WellFormed(r)) && Supported(l) && Supported(r)
  {
    AtomicIs(a); AtomicIs(b); AtomicIs(c);
    hide BinPrec;
    assert WellFormed(Bin(o1, a, b)) && Level(Bin(o1, a, b)) == BinPrec(o1);
    assert WellFormed(Bin(o2, b, c)) && Level(Bin(o2, b, c)) == BinPrec(o2);
    assert BadCommas(Bin(o1, a, b)) == 0 && OpNeed(Bin(o1, a, b)) == 1 && NumNeed(Bin(o1, a, b)) == 2;
    assert BadCommas(Bin(o2, b, c)) == 0 && OpNeed(Bin(o2, b, c)) == 1 && NumNeed(Bin(o2, b, c)) == 2;
  }

  lemma AtomicIs(e: Expr)
    requires Atomic(e)
    ensures WellFormed(e) && Level(e) == ATOM && BadCommas(e) == 0 && OpNeed(e) == 0 && NumNeed(e) == 1
  {}

  /* ----- one operator, written out ----- */

  /** `a op b` for the operators that only compute: the operands stand in this order. */
  lemma TwoOperands(a: int, op: CalcOp, b: int, s: Store)
    ensures var r := Expand([Num(a), Sym(Infix(Calc(op))), Num(b)], s);
            var c := Compute(op, a, b);
            if c.Some? then r.Value? && r.v == c.value && r.store == s else r == Failed(s)
  {
    var e := Bin(Calc(op), Const(a), Const(b));
    assert Toks(e) == [Num(a), Sym(Infix(Calc(op))), Num(b)];
    AtomicIs(Const(a)); AtomicIs(Const(b));
    assert Eval(Const(a), s) == Got(Lit(a), s) && Eval(Const(b), s) == Got(Lit(b), s);
    hide Expand, Toks, Rpn;
    ExpandTree(e, s);
  }

  // The expansion of an operator token and a number has the value v, and stores nothing.
  predicate Gives(op: Tok, a: int, v: int, s: Store) {
    var r := Expand([op, Num(a)], s);
    r.Value? && r.v == v && r.store == s
  }

  /** `-a`, `+a`, `!a` and `~a`. */
  lemma OneOperand(a: int, s: Store)
    ensures Gives(Sym(Infix(Calc(Sub))), a, ToLong(-a), s)
    ensures Gives(Sym(Infix(Calc(Add))), a, a, s)
    ensures Gives(Sym(Prefix(LogNot)), a, if a == 0 then 1 else 0, s)
    ensures Gives(Sym(Prefix(BitNot)), a, -a - 1, s)
  {
    OneIs(Minus, a, s);
    OneIs(Plus, a, s);
    OneIs(LogNot, a, s);
    OneIs(BitNot, a, s);
    hide Expand;
  }

  lemma OneIs(op: PreOp, a: int, s: Store)
    requires !op.Step?
    ensures var r := Expand([Sym(Spelling(Prefix(op))), Num(a)], s);
            r.Value? && r.v == ApplyPrefix(op, Lit(a), s).v && r.store == s
  {
    var e := Pre(op, Const(a));
    assert Toks(e) == [Sym(Spelling(Prefix(op)))] + [Num(a)];
    AtomicIs(Const(a));
    assert Eval(Const(a), s) == Got(Lit(a), s);
    hide Expand, Toks, Rpn, Spelling;
    ExpandTree(e, s);
  }

  /** So `a + b * c` adds a to the product. */
  lemma SumOfProduct(a: int, b: int, c: int, s: Store)
    ensures var r := Expand([Num(a), Sym(Infix(Calc(Add))), Num(b), Sym(Infix(Calc(Mul))), Num(c)], s);
            r.Value? && r.v == ToLong(a + ToLong(b * c))
  {
    var x, y, z := Const(a), Const(b), Const(c);
    ThreeIs(a, Add, b, Mul, c, s);
    WellFormedIsDerived(Bin(Calc(Mul), Bin(Calc(Add), x, y), z));
    assert Level(Bin(Calc(Add), x, y)) == 16;
    EvalCalc(Mul, y, z, b, c, s);
    EvalCalc(Add, x, Bin(Calc(Mul), y, z), a, ToLong(b * c), s);
    hide Expand, Derives, ToLong, Level, Rpn;
  }

  /** And `a - b - c` takes c from the difference. */
  lemma DifferenceFirst(a: int, b: int, c: int, s: Store)
    ensures var r := Expand([Num(a), Sym(Infix(Calc(Sub))), Num(b), Sym(Infix(Calc(Sub))), Num(c)], s);
            r.Value? && r.v == ToLong(ToLong(a - b) - c)
  {
    var x, y, z := Const(a), Const(b), Const(c);
    ThreeIs(a, Sub, b, Sub, c, s);
    WellFormedIsDerived(Bin(Calc(Sub), Bin(Calc(Sub), x, y), z));
    AtomicIs(x); AtomicIs(y); AtomicIs(z);
    assert WellFormed(Bin(Calc(Sub), x, y)) && Level(Bin(Calc(Sub), x, y)) == 16;
    EvalCalc(Sub, x, y, a, b, s);
    EvalCalc(Sub, Bin(Calc(Sub), x, y), z, ToLong(a - b), c, s);
    hide Expand, Derives, ToLong, Level, Rpn;
  }

  lemma EvalCalc(op: CalcOp, l: Expr, r: Expr, i: int, j: int, s: Store)
    requires l.Const? ==> l.n == i
    requires r.Const? ==> r.n == j
    requires l.Const? || Eval(l, s) == Got(Lit(i), s)
    requires r.Const? || Eval(r, s) == Got(Lit(j), s)
    requires Compute(op, i, j).Some?
    ensures Eval(Bin(Calc(op), l, r), s) == Got(Lit(Compute(op, i, j).value), s)
  {
    assert Eval(l, s) == Got(Lit(i), s) && Eval(r, s) == Got(Lit(j), s);
    hide Compute;
  }

  lemma ThreeIs(a: int, o1: CalcOp, b: int, o2: CalcOp, c: int, s: Store)
    ensures var l := Bin(Calc(o2), Bin(Calc(o1), Const(a), Const(b)), Const(c));
            var r := Bin(Calc(o1), Const(a), Bin(Calc(o2), Const(b), Const(c)));
            Expand([Num(a), Sym(Infix(Calc(o1))), Num(b), Sym(Infix(Calc(o2))), Num(c)], s)
            == Answered(if Derives(Expression, l) then l else r, s)
  {
    ThreeOperands(Const(a), Calc(o1), Const(b), Calc(o2), Const(c), s);
    assert Toks(Const(a)) == [Num(a)] && Toks(Const(b)) == [Num(b)] && Toks(Const(c)) == [Num(c)];
    hide Expand, Toks, Derives, Answered;
    assert [Num(a)] + [Sym(Infix(Calc(o1)))] + [Num(b)] + [Sym(Infix(Calc(o2)))] + [Num(c)]
        == [Num(a), Sym(Infix(Calc(o1))), Num(b), Sym(Infix(Calc(o2))), Num(c)];
  }

  /** No tokens at all are blank; a pair of parentheses with nothing in it, and two operands next
      to each other, fail. */
  lemma NothingOrTwo(a: int, b: int, s: Store)
    ensures Expand([], s) == Blank(s) && Expand([Sym(LParen), Sym(RParen)], s) == Failed(s)
    ensures Expand([Num(a), Num(b)], s) == Failed(s)
  {
    var m := Start(s);
    assert RunToks(m, []) == Run(m) && DrainTo(m, 0) == Run(m);
    EmptyPair(s);
    TwoNumbers(a, b, s);
    hide RunToks;
  }

  lemma EmptyPair(s: Store)
    ensures RunToks(Start(s), [Sym(LParen), Sym(RParen)]) == Err(s)
  {
    var m, ts := Start(s), [Sym(LParen), Sym(RParen)];
    var m1 := m.(ops := [LParen], last := AfterOp(LParen));
    assert StepTok(m, ts[0]) == Run(m1);
    assert ts[1..][0] == Sym(RParen);
    assert StepTok(m1, ts[1]) == Err(s);
  }

  lemma TwoNumbers(a: int, b: int, s: Store)
    ensures var n := Machine([], [Lit(a), Lit(b)], s, AfterOperand, [Operand(Lit(a)), Operand(Lit(b))]);
            RunToks(Start(s), [Num(a), Num(b)]) == Run(n) && DrainTo(n, 0) == Run(n)
  {
    var m, ns := Start(s), [Num(a), Num(b)];
    var n1 := Machine([], [Lit(a)], s, AfterOperand, [Operand(Lit(a))]);
    var n2 := Machine([], [Lit(a), Lit(b)], s, AfterOperand, [Operand(Lit(a)), Operand(Lit(b))]);
    assert StepTok(m, ns[0]) == Run(n1) && StepTok(n1, ns[1]) == Run(n2);
    assert ns[1..][1..] == [] && RunToks(n2, []) == Run(n2) && RunToks(n1, ns[1..]) == Run(n2);
  }
}
