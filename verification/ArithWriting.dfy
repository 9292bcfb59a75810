/** Any tree can be written with the parentheses it needs, and expressions that never overflow the
    stacks. */
module ArithWriting {
  import opened ArithOps
  import opened ArithMachine
  import opened ArithExpr
  import opened ArithTree

  /* ----- parentheses only where they are required ----- */

  function Guard(e: Expr, level: nat): Expr { if Level(e) >= level then e else Paren(e) }

  function Parenthesized(e: Expr): Expr {
    match e
    case Const(_) | Var(_) => e
    case Paren(a) => Paren(Parenthesized(a))
    case Pre(op, a) => Pre(op, Guard(Parenthesized(a), 19))
    case Post(op, a) => Post(op, Guard(Parenthesized(a), 20))
    case Bin(op, l, r) =>
      var p := BinPrec(op);
      if RightLevel(p) then Bin(op, Guard(Parenthesized(l), p + 1), Guard(Parenthesized(r), p))
      else Bin(op, Guard(Parenthesized(l), p), Guard(Parenthesized(r), p + 1))
    case Then(l, r) => Then(Parenthesized(l), Guard(Parenthesized(r), 1))
  }

  /** Any tree can be written: the added parentheses are enough, and none is added to a tree
      that needs none. */
  lemma {:induction false} ParenthesizedShape(e: Expr)
    ensures WellFormed(Parenthesized(e))
    ensures WellFormed(e) ==> Parenthesized(e) == e
  {
    match e
    case Const(_) =>
    case Var(_) =>
    case Paren(a) => ParenthesizedShape(a);
    case Pre(_, a) => ParenthesizedShape(a);
    case Post(_, a) => ParenthesizedShape(a);
    case Bin(op, l, r) => ParenthesizedShape(l); ParenthesizedShape(r); ParenthesizedBin(op, l, r);
    case Then(l, r) => ParenthesizedShape(l); ParenthesizedShape(r);
  }

  lemma ParenthesizedBin(op: BinOp, l: Expr, r: Expr)
    requires WellFormed(Parenthesized(l)) && WellFormed(Parenthesized(r))
    requires (WellFormed(l) ==> Parenthesized(l) == l) && (WellFormed(r) ==> Parenthesized(r) == r)
    ensures WellFormed(Parenthesized(Bin(op, l, r)))
    ensures WellFormed(Bin(op, l, r)) ==> Parenthesized(Bin(op, l, r)) == Bin(op, l, r)
  {
    var p := BinPrec(op);
    GuardFits(Parenthesized(l), p);
    GuardFits(Parenthesized(l), p + 1);
    GuardFits(Parenthesized(r), p);
    GuardFits(Parenthesized(r), p + 1);
    hide Guard, BinPrec, Level;
    var q := Parenthesized(Bin(op, l, r));
    assert q == if RightLevel(p) then Bin(op, Guard(Parenthesized(l), p + 1), Guard(Parenthesized(r), p))
                else Bin(op, Guard(Parenthesized(l), p), Guard(Parenthesized(r), p + 1));
  }

  lemma GuardFits(e: Expr, level: nat)
    requires level <= ATOM
    ensures WellFormed(e) ==> WellFormed(Guard(e, level))
    ensures Level(Guard(e, level)) >= level && (Level(e) >= level ==> Guard(e, level) == e)
  {}

  lemma GuardKeeps(e: Expr, level: nat, s: Store)
    ensures Eval(Guard(e, level), s) == Eval(e, s)
    ensures Rpn(Guard(e, level)) == Rpn(e)
  {
  }

  /** The added parentheses change neither the meaning nor the evaluation order. */
  lemma {:induction false} ParenthesizedKeeps(e: Expr, s: Store)
    ensures Eval(Parenthesized(e), s) == Eval(e, s)
    ensures Rpn(Parenthesized(e)) == Rpn(e)
    decreases e
  {
    match e
    case Const(_) =>
    case Var(_) =>
    case Paren(a) => ParenthesizedKeeps(a, s);
    case Pre(op, a) =>
      ParenthesizedKeeps(a, s);
      GuardKeeps(Parenthesized(a), 19, s);
      assert Parenthesized(e).arg == Guard(Parenthesized(a), 19);
    case Post(op, a) =>
      ParenthesizedKeeps(a, s);
      GuardKeeps(Parenthesized(a), 20, s);
      assert Parenthesized(e).arg == Guard(Parenthesized(a), 20);
    case Bin(op, l, r) =>
      var p := if RightLevel(BinPrec(op)) then BinPrec(op) + 1 else BinPrec(op);
      var q := if RightLevel(BinPrec(op)) then BinPrec(op) else BinPrec(op) + 1;
      assert Parenthesized(e) == Bin(op, Guard(Parenthesized(l), p), Guard(Parenthesized(r), q));
      var s1 := if Eval(l, s).Got? then Eval(l, s).store else s;
      ParenthesizedKeeps(l, s);
      GuardKeeps(Parenthesized(l), p, s);
      ParenthesizedKeeps(r, s1);
      GuardKeeps(Parenthesized(r), q, s1);
    case Then(l, r) =>
      var s1 := if Eval(l, s).Got? then Eval(l, s).store else s;
      ParenthesizedKeeps(l, s);
      ParenthesizedKeeps(r, s1);
      GuardKeeps(Parenthesized(r), 1, s1);
  }

  predicate CommaFree(e: Expr) {
    match e
    case Const(_) | Var(_) => true
    case Paren(a) => CommaFree(a)
    case Pre(_, a) => CommaFree(a)
    case Post(_, a) => CommaFree(a)
    case Bin(_, l, r) => CommaFree(l) && CommaFree(r)
    case Then(_, _) => false
  }

  lemma CommaFreeGood(e: Expr)
    requires CommaFree(e)
    ensures BadCommas(Parenthesized(e)) == 0
  {
  }

  /** For every comma-free tree at all, written with the parentheses it needs. */
  lemma ExpandAnyTree(e: Expr, s: Store)
    requires CommaFree(e)
    ensures var p := Parenthesized(e);
            if OpNeed(p) <= MAXSTACK && NumNeed(p) <= MAXSTACK then Expand(Toks(p), s) == Answered(e, s)
            else Expand(Toks(p), s).Failed?
  {
    ParenthesizedShape(e);
    ParenthesizedKeeps(e, s);
    CommaFreeGood(e);
    ExpandTree(Parenthesized(e), s);
  }

  /* ----- expressions that never overflow ----- */

  // Operators that group from the left only: no prefix operators, `**` or assignment.
  predicate LeftOnly(e: Expr) {
    match e
    case Const(_) | Var(_) => true
    case Paren(a) => LeftOnly(a)
    case Pre(_, _) => false
    case Post(_, a) => LeftOnly(a)
    case Bin(op, l, r) => !RightLevel(BinPrec(op)) && LeftOnly(l) && LeftOnly(r)
    case Then(l, r) => LeftOnly(l) && LeftOnly(r)
  }

  function Nesting(e: Expr): nat {
    match e
    case Const(_) | Var(_) => 0
    case Paren(a) => 1 + Nesting(a)
    case Pre(_, a) => Nesting(a)
    case Post(_, a) => Nesting(a)
    case Bin(_, l, r) => Max(Nesting(l), Nesting(r))
    case Then(l, r) => Max(Nesting(l), Nesting(r))
  }

  // How many left-grouping levels there are at or above a level.
  function LeftLevels(level: nat): nat {
    if level > 20 then 0 else if level > 17 then 1 else if level < 8 then 11 else 19 - level
  }

  lemma {:induction false} LeftNeed(e: Expr)
    requires WellFormed(e) && LeftOnly(e)
    ensures OpNeed(e) <= LeftLevels(Level(e)) + 12 * Nesting(e)
    ensures NumNeed(e) <= OpNeed(e) + 1
  {
    match e
    case Const(_) =>
    case Var(_) =>
    case Paren(a) => LeftNeed(a); hide LeftLevels;
    case Post(_, a) => LeftNeed(a);
    case Bin(op, l, r) =>
      LeftNeed(l);
      LeftNeed(r);
      NeedBin(op, l, r);
    case Then(l, r) =>
      LeftNeed(l);
      LeftNeed(r);
      NeedThen(l, r);
  }

  predicate LeftBound(e: Expr) { OpNeed(e) <= LeftLevels(Level(e)) + 12 * Nesting(e) && NumNeed(e) <= OpNeed(e) + 1 }

  lemma NeedBin(op: BinOp, l: Expr, r: Expr)
    requires WellFormed(Bin(op, l, r)) && LeftOnly(Bin(op, l, r)) && LeftBound(l) && LeftBound(r)
    ensures LeftBound(Bin(op, l, r))
  {
    hide OpNeed, NumNeed, Nesting, Level, WellFormed, LeftOnly, LeftLevels;
    var e := Bin(op, l, r);
    BinFacts(op, l, r);
    LevelsFall(Level(e), Level(l), Level(r));
  }

  lemma BinFacts(op: BinOp, l: Expr, r: Expr)
    requires WellFormed(Bin(op, l, r)) && LeftOnly(Bin(op, l, r))
    ensures var e := Bin(op, l, r);
            && Nesting(e) >= Nesting(l) && Nesting(e) >= Nesting(r)
            && 8 <= Level(e) <= 17 && Level(l) >= Level(e) && Level(r) > Level(e)
            && OpNeed(e) == Max(OpNeed(l), 1 + OpNeed(r)) && NumNeed(e) == Max(NumNeed(l), 1 + NumNeed(r))
  {}

  lemma NeedThen(l: Expr, r: Expr)
    requires LeftBound(l) && LeftBound(r)
    ensures LeftBound(Then(l, r))
  {
    LevelsFall(0, Level(l), Level(r));
    hide LeftLevels;
  }

  lemma LevelsFall(e: nat, l: nat, r: nat)
    ensures l >= e ==> LeftLevels(l) <= LeftLevels(e)
    ensures r > e && 8 <= e <= 17 ==> 1 + LeftLevels(r) <= LeftLevels(e)
    ensures LeftLevels(r) <= LeftLevels(0)
  {}

  /** An expression of any length made of left-grouping operators, with parentheses nested at
      most four deep, never overflows a stack. */
  lemma LeftOnlyNeverOverflows(e: Expr, s: Store)
    requires WellFormed(e) && LeftOnly(e) && Nesting(e) <= 4 && BadCommas(e) == 0
    ensures Expand(Toks(e), s) == Answered(e, s)
  {
    LeftNeed(e);
    ExpandTree(e, s);
  }
}
