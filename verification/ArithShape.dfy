/** The two-stack machine on the infix form of a tree: how tokens are read one tree at a time, and
    the shape of the stacks afterwards, whatever the values. */
module ArithShape {
  import opened Basics
  import opened ArithOps
  import opened ArithMachine
  import opened ArithExpr

  /* ----- the machine on a tree ----- */

  /** No operator on the left edge of e makes the operator on top of the stack fire. */
  predicate Admits(ops: seq<Op>, e: Expr) {
    ops == [] ||
    var top := ops[|ops| - 1];
    if Level(e) == 0 then top == LParen
    else Prec(top) < Level(e) || (Prec(top) == Level(e) && RightLevel(Level(e)))
  }

  predicate OperandExpected(m: Machine) {
    !OperandDone(m.last) && (m.last == AfterOp(Comma) ==> m.nums != [])
  }

  function ReadTree(m: Machine, e: Expr): Outcome { RunToks(m, Toks(e)) }

  // Read e, then fire what e left on the operator stack.
  function Complete(m: Machine, e: Expr): Outcome { DrainNext(ReadTree(m, e), |m.ops|) }

  /** After reading e the stack holds what it held, then operators of e that bind at least as
      tightly as e itself, none of them a parenthesis. */
  predicate Spine(m: Machine, e: Expr) {
    match ReadTree(m, e)
    case Err(_) => true
    case Run(m') =>
      && m.ops <= m'.ops
      && m'.last == LastOf(e)
      && forall k :: |m.ops| <= k < |m'.ops| ==> Prec(m'.ops[k]) >= Level(e) && m'.ops[k] != LParen
  }

  // The operand that a comma before e discards.
  function Dropped(m: Machine, e: Expr): nat {
    if m.last == AfterOp(Comma) && LeadsWithOperand(e) then 1 else 0
  }

  predicate Height(m: Machine, e: Expr) {
    match Complete(m, e)
    case Err(_) => true
    case Run(m') => m'.ops == m.ops && |m'.nums| == |m.nums| - Dropped(m, e) + 1 + BadCommas(e)
  }

  lemma FireTakesTop(m: Machine)
    requires m.ops != []
    ensures var r := Fire(m); r.Run? ==> r.m.ops == m.ops[..|m.ops| - 1]
  {}

  lemma {:induction false} YieldDrain(m: Machine, op: Op, h: nat)
    requires h <= |m.ops|
    requires forall k :: h <= k < |m.ops| ==> Yields(op, m.ops[k])
    requires h == 0 || !Yields(op, m.ops[h - 1])
    ensures FireYielding(m, op) == DrainTo(m, h)
    decreases |m.ops|
  {
    hide Fire, Yields;
    if |m.ops| > h {
      FireTakesTop(m);
      match Fire(m)
      case Err(_) =>
      case Run(m') => YieldDrain(m', op, h);
    }
  }

  lemma {:induction false} ParenDrain(m: Machine, h: nat)
    requires h <= |m.ops|
    requires forall k :: h <= k < |m.ops| ==> m.ops[k] != LParen
    requires h == 0 || m.ops[h - 1] == LParen
    ensures FireToParen(m) == DrainTo(m, h)
    decreases |m.ops|
  {
    hide Fire;
    if |m.ops| > h {
      FireTakesTop(m);
      match Fire(m)
      case Err(_) =>
      case Run(m') => ParenDrain(m', h);
    }
  }

  /** What a stack of operators that bind at least as tightly as `level` does when op comes. */
  predicate AllYield(op: Op, level: nat) {
    if RightLevel(Prec(op)) then Prec(op) < level else Prec(op) <= level
  }

  // Sequencing of outcomes.
  function Pushed(r: Outcome, op: Op): Outcome {
    match r
    case Err(s) => Err(s)
    case Run(m) => WithLast(PushOp(m, op), AfterOp(op))
  }

  function Closed(r: Outcome): Outcome {
    match r
    case Err(s) => Err(s)
    case Run(m) =>
      if m.ops == [] then Err(m.store)
      else Run(m.(ops := m.ops[..|m.ops| - 1], last := AfterOp(RParen)))
  }

  function ReadNext(r: Outcome, e: Expr): Outcome {
    match r
    case Err(s) => Err(s)
    case Run(m) => ReadTree(m, e)
  }

  function CompleteNext(r: Outcome, e: Expr): Outcome {
    match r
    case Err(s) => Err(s)
    case Run(m) => Complete(m, e)
  }

  lemma DoneAfter(e: Expr)
    requires WellFormed(e)
    ensures OperandDone(LastOf(e))
  {
  }

  lemma RunOne(m: Machine, t: Tok)
    ensures RunToks(m, [t]) == StepTok(m, t)
  {
    match StepTok(m, t)
    case Err(_) =>
    case Run(m') => assert RunToks(m', []) == Run(m');
  }

  function PushNext(r: Outcome, op: Op): Outcome {
    match r
    case Err(s) => Err(s)
    case Run(m) => PushOp(m, op)
  }

  lemma StepAfter(m: Machine, op: Op)
    requires OperandDone(m.last)
    ensures RunToks(m, [Sym(op)]) == WithLast(Shunt(m, op), AfterOp(op))
  {
    RunOne(m, Sym(op));
  }

  lemma ShuntYielding(m: Machine, op: Op, h: nat)
    requires Evaluable(op) && h <= |m.ops|
    requires forall k :: h <= k < |m.ops| ==> Yields(op, m.ops[k])
    requires h == 0 || !Yields(op, m.ops[h - 1])
    ensures Shunt(m, op) == PushNext(DrainTo(m, h), op)
  {
    YieldDrain(m, op, h);
  }

  /** An evaluable operator after e first completes e. */
  lemma OperatorAfter(m: Machine, e: Expr, op: Op)
    requires WellFormed(e) && Spine(m, e) && Evaluable(op)
    requires AllYield(op, Level(e))
    requires m.ops == [] || !Yields(op, m.ops[|m.ops| - 1])
    ensures RunToks(m, Toks(e) + [Sym(op)]) == Pushed(Complete(m, e), op)
  {
    hide Shunt, StepTok, RunToks, DrainTo, Toks, Yields, AllYield, Spine, LastOf, WellFormed, OperandDone, WithLast,
         PushNext, Pushed;
    RunAppend(m, Toks(e), [Sym(op)]);
    var r := ReadTree(m, e);
    if r.Err? {
      PushedErr(r.store, op);
    } else {
      DoneAfter(e);
      SpineYields(m, e, op);
      StepAfter(r.m, op);
      ShuntYielding(r.m, op, |m.ops|);
      PushedIs(DrainTo(r.m, |m.ops|), op);
    }
  }

  lemma PushedErr(s: Store, op: Op)
    ensures Pushed(Err(s), op) == Err(s)
  {}

  lemma PushedIs(d: Outcome, op: Op)
    ensures WithLast(PushNext(d, op), AfterOp(op)) == Pushed(d, op)
  {}

  // What a spine leaves yields to op, and what was below does not.
  lemma SpineYields(m: Machine, e: Expr, op: Op)
    requires Spine(m, e) && AllYield(op, Level(e)) && ReadTree(m, e).Run?
    requires m.ops == [] || !Yields(op, m.ops[|m.ops| - 1])
    ensures var ops := ReadTree(m, e).m.ops;
            && |m.ops| <= |ops| && (forall k :: |m.ops| <= k < |ops| ==> Yields(op, ops[k]))
            && (m.ops == [] || !Yields(op, ops[|m.ops| - 1])) && ReadTree(m, e).m.last == LastOf(e)
  {
    hide ReadTree;
  }

  lemma ShuntClosing(m: Machine, op: Op, h: nat)
    requires (op == RParen || op == Comma) && h <= |m.ops|
    requires forall k :: h <= k < |m.ops| ==> m.ops[k] != LParen
    requires h == 0 || m.ops[h - 1] == LParen
    ensures WithLast(Shunt(m, op), AfterOp(op)) ==
            if op == RParen then Closed(DrainTo(m, h)) else WithLast(DrainTo(m, h), AfterOp(Comma))
  {
    ParenDrain(m, h);
  }

  /** So does a `,` or a `)`, when e began at the bottom of the stack or at a `(`. */
  lemma CloserAfter(m: Machine, e: Expr, op: Op)
    requires WellFormed(e) && Spine(m, e) && (op == RParen || op == Comma)
    requires m.ops == [] || m.ops[|m.ops| - 1] == LParen
    ensures RunToks(m, Toks(e) + [Sym(op)]) ==
            if op == RParen then Closed(Complete(m, e)) else WithLast(Complete(m, e), AfterOp(Comma))
  {
    RunAppend(m, Toks(e), [Sym(op)]);
    var r := ReadTree(m, e);
    if r.Run? {
      DoneAfter(e);
      StepAfter(r.m, op);
      ShuntClosing(r.m, op, |m.ops|);
    }
  }

  lemma FirstStep(m: Machine, op: Op)
    requires !OperandDone(m.last)
    requires op == LParen || op.Prefix?
    requires op == LParen || m.ops == [] || !Yields(op, m.ops[|m.ops| - 1])
    ensures StepTok(m, Sym(Spelling(op))) == Pushed(Run(m), op)
  {
    assert Resolve(m.last, Spelling(op)) == Some(op);
    if op != LParen { assert FireYielding(m, op) == Run(m); }
  }

  /** A prefix operator or a `(` where an operand is expected is pushed at once. */
  lemma OperatorFirst(m: Machine, op: Op, rest: seq<Tok>)
    requires !OperandDone(m.last)
    requires op == LParen || op.Prefix?
    requires op == LParen || m.ops == [] || !Yields(op, m.ops[|m.ops| - 1])
    ensures RunToks(m, [Sym(Spelling(op))] + rest) ==
            RunNext(Pushed(Run(m), op), rest)
  {
    FirstStep(m, op);
    assert ([Sym(Spelling(op))] + rest)[1..] == rest;
  }

  lemma ReadPre(m: Machine, op: PreOp, a: Expr)
    requires WellFormed(Pre(op, a)) && OperandExpected(m) && Admits(m.ops, Pre(op, a))
    ensures ReadTree(m, Pre(op, a)) == ReadNext(Pushed(Run(m), Prefix(op)), a)
  {
    OperatorFirst(m, Prefix(op), Toks(a));
  }

  lemma ReadPost(m: Machine, op: IncDec, a: Expr)
    requires WellFormed(Post(op, a)) && Admits(m.ops, Post(op, a)) && Spine(m, a)
    ensures ReadTree(m, Post(op, a)) == Pushed(Complete(m, a), Postfix(op))
  {
    OperatorAfter(m, a, Postfix(op));
  }

  lemma ReadBin(m: Machine, op: BinOp, l: Expr, r: Expr)
    requires WellFormed(Bin(op, l, r)) && Admits(m.ops, Bin(op, l, r)) && Spine(m, l)
    ensures ReadTree(m, Bin(op, l, r)) == ReadNext(Pushed(Complete(m, l), Infix(op)), r)
  {
    OperatorAfter(m, l, Infix(op));
    RunAppend(m, Toks(l) + [Sym(Infix(op))], Toks(r));
  }

  lemma ReadThen(m: Machine, l: Expr, r: Expr)
    requires WellFormed(Then(l, r)) && Admits(m.ops, Then(l, r)) && Spine(m, l)
    ensures ReadTree(m, Then(l, r)) == ReadNext(WithLast(Complete(m, l), AfterOp(Comma)), r)
  {
    CloserAfter(m, l, Comma);
    RunAppend(m, Toks(l) + [Sym(Comma)], Toks(r));
  }

  lemma ReadParen(m: Machine, a: Expr)
    requires WellFormed(a) && OperandExpected(m)
    requires var p := Pushed(Run(m), LParen); p.Run? ==> Spine(p.m, a)
    ensures ReadTree(m, Paren(a)) == Closed(CompleteNext(Pushed(Run(m), LParen), a))
  {
    assert Toks(Paren(a)) == [Sym(LParen)] + (Toks(a) + [Sym(RParen)]);
    OperatorFirst(m, LParen, Toks(a) + [Sym(RParen)]);
    match Pushed(Run(m), LParen)
    case Err(_) =>
    case Run(m1) => CloserAfter(m1, a, RParen);
  }

  /** Completing a tree inside a larger stack takes two rounds of firing. */
  lemma CompleteOver(m: Machine, e: Expr, h: nat)
    requires h <= |m.ops|
    ensures DrainNext(ReadTree(m, e), h) == DrainNext(Complete(m, e), h)
  {
    match ReadTree(m, e)
    case Err(_) =>
    case Run(m') => DrainSplit(m', h, |m.ops|);
  }

  /* ----- the shape of the stacks ----- */

  lemma FireOne(m: Machine, h: nat)
    requires |m.ops| == h + 1
    ensures DrainTo(m, h) == Fire(m)
  {
    match Fire(m)
    case Err(_) =>
    case Run(m') => assert |m'.ops| == h;
  }

  // One operator fired on top of a completed argument.
  lemma FireShape(m: Machine, ops: seq<Op>, op: Op)
    requires m.ops == ops + [op]
    ensures var r := DrainTo(m, |ops|); r.Run? ==>
      r.m.ops == ops && |r.m.nums| == |m.nums| - if Unary(op) then 0 else 1
  {
    FireOne(m, |ops|);
  }

  // An operator that binds no looser than e stays below the spine of its last operand.
  lemma SpineOver(m: Machine, p: Outcome, op: Op, e: Expr, a: Expr)
    requires ReadTree(m, e) == ReadNext(p, a)
    requires p.Run? ==> p.m.ops == m.ops + [op] && Spine(p.m, a)
    requires op != LParen && Prec(op) >= Level(e) && Level(a) >= Level(e) && LastOf(a) == LastOf(e)
    ensures Spine(m, e)
  {
    hide ReadTree, Prec, Level, LastOf;
  }

  lemma HeightPre(m: Machine, op: PreOp, a: Expr)
    requires OperandExpected(m)
    requires var p := Pushed(Run(m), Prefix(op));
             ReadTree(m, Pre(op, a)) == ReadNext(p, a) && (p.Run? ==> Height(p.m, a))
    ensures Height(m, Pre(op, a))
  {
    hide ReadTree, StepTok, RunToks, Toks, Fire;
    var p := Pushed(Run(m), Prefix(op));
    if p.Run? {
      CompleteOver(p.m, a, |m.ops|);
      var c := Complete(p.m, a);
      if c.Run? { FireShape(c.m, m.ops, Prefix(op)); }
    }
  }

  lemma ShapePre(m: Machine, op: PreOp, a: Expr)
    requires WellFormed(Pre(op, a)) && OperandExpected(m) && Admits(m.ops, Pre(op, a))
    requires var p := Pushed(Run(m), Prefix(op)); p.Run? ==> Spine(p.m, a) && Height(p.m, a)
    ensures Spine(m, Pre(op, a)) && Height(m, Pre(op, a))
  {
    hide Spine, Height, ReadTree, Complete, OperandExpected;
    ReadPre(m, op, a);
    SpineOver(m, Pushed(Run(m), Prefix(op)), Prefix(op), Pre(op, a), a);
    HeightPre(m, op, a);
  }

  lemma ShapePost(m: Machine, op: IncDec, a: Expr)
    requires WellFormed(Post(op, a)) && OperandExpected(m) && Admits(m.ops, Post(op, a))
    requires Spine(m, a) && Height(m, a)
    ensures Spine(m, Post(op, a)) && Height(m, Post(op, a))
  {
    ReadPost(m, op, a);
    var p := Pushed(Complete(m, a), Postfix(op));
    if p.Run? { FireShape(p.m, m.ops, Postfix(op)); }
  }

  lemma HeightBin(m: Machine, op: BinOp, l: Expr, r: Expr)
    requires OperandExpected(m) && Height(m, l)
    requires var p := Pushed(Complete(m, l), Infix(op));
             ReadTree(m, Bin(op, l, r)) == ReadNext(p, r) && (p.Run? ==> Height(p.m, r))
    ensures Height(m, Bin(op, l, r))
  {
    hide ReadTree, StepTok, RunToks, Toks, Fire;
    var p := Pushed(Complete(m, l), Infix(op));
    if p.Run? {
      CompleteOver(p.m, r, |m.ops|);
      var c := Complete(p.m, r);
      if c.Run? { FireShape(c.m, m.ops, Infix(op)); }
    }
  }

  lemma ShapeBin(m: Machine, op: BinOp, l: Expr, r: Expr)
    requires WellFormed(Bin(op, l, r)) && OperandExpected(m) && Admits(m.ops, Bin(op, l, r))
    requires Spine(m, l) && Height(m, l)
    requires var p := Pushed(Complete(m, l), Infix(op)); p.Run? ==> Spine(p.m, r) && Height(p.m, r)
    ensures Spine(m, Bin(op, l, r)) && Height(m, Bin(op, l, r))
  {
    hide Spine, ReadTree, Complete, OperandExpected;
    ReadBin(m, op, l, r);
    SpineOver(m, Pushed(Complete(m, l), Infix(op)), Infix(op), Bin(op, l, r), r);
    HeightBin(m, op, l, r);
  }

  lemma ShapeParen(m: Machine, a: Expr)
    requires WellFormed(a) && OperandExpected(m)
    requires var p := Pushed(Run(m), LParen); p.Run? ==> Spine(p.m, a) && Height(p.m, a)
    ensures Spine(m, Paren(a)) && Height(m, Paren(a))
  {
    ReadParen(m, a);
  }

  lemma AdmitsPre(m: Machine, op: PreOp, a: Expr)
    requires WellFormed(Pre(op, a)) && OperandExpected(m)
    ensures var p := Pushed(Run(m), Prefix(op)); p.Run? ==> OperandExpected(p.m) && Admits(p.m.ops, a)
  {
  }

  lemma AdmitsBin(m: Machine, op: BinOp, l: Expr, r: Expr)
    requires WellFormed(Bin(op, l, r)) && OperandExpected(m) && Admits(m.ops, Bin(op, l, r))
    ensures Admits(m.ops, l)
    ensures var p := Pushed(Complete(m, l), Infix(op));
            p.Run? && Height(m, l) ==> OperandExpected(p.m) && Admits(p.m.ops, r)
  {
  }

  lemma ShapeThen(m: Machine, l: Expr, r: Expr)
    requires WellFormed(Then(l, r)) && OperandExpected(m) && Admits(m.ops, Then(l, r))
    requires Spine(m, l) && Height(m, l)
    requires var p := WithLast(Complete(m, l), AfterOp(Comma)); p.Run? ==> Spine(p.m, r) && Height(p.m, r)
    ensures Spine(m, Then(l, r)) && Height(m, Then(l, r))
  {
    ReadThen(m, l, r);
  }

  lemma ShapeAtom(m: Machine, e: Expr)
    requires (e.Const? || e.Var?) && OperandExpected(m)
    ensures Spine(m, e) && Height(m, e)
  {
    RunOne(m, Toks(e)[0]);
  }

  /** Whatever the values, reading e leaves a spine, and completing it leaves one operand more
      than before, plus one for every comma whose left operand was not discarded. */
  lemma {:induction false} Shape(m: Machine, e: Expr)
    requires WellFormed(e) && OperandExpected(m) && Admits(m.ops, e)
    ensures Spine(m, e) && Height(m, e)
    decreases e
  {
    hide Spine, RunToks, Shunt, Toks;
    match e
    case Const(_) => ShapeAtom(m, e);
    case Var(_) => ShapeAtom(m, e);
    case Pre(op, a) =>
      AdmitsPre(m, op, a);
      var p := Pushed(Run(m), Prefix(op));
      if p.Run? { Shape(p.m, a); }
      ShapePre(m, op, a);
    case Post(op, a) =>
      Shape(m, a);
      ShapePost(m, op, a);
    case Bin(op, l, r) =>
      AdmitsBin(m, op, l, r);
      Shape(m, l);
      var p := Pushed(Complete(m, l), Infix(op));
      if p.Run? { Shape(p.m, r); }
      ShapeBin(m, op, l, r);
    case Then(l, r) =>
      Shape(m, l);
      var p := WithLast(Complete(m, l), AfterOp(Comma));
      if p.Run? { Shape(p.m, r); }
      ShapeThen(m, l, r);
    case Paren(a) =>
      var p := Pushed(Run(m), LParen);
      if p.Run? { Shape(p.m, a); }
      ShapeParen(m, a);
  }
}
