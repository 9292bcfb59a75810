/** The two-stack machine run on the infix form of a tree does exactly what post-order evaluation
    of the tree does. */
module ArithTree {
  import opened ArithOps
  import opened ArithMachine
  import opened ArithExpr
  import opened ArithShape

  /* ----- the values ----- */

  predicate Fits(m: Machine, e: Expr) {
    |m.ops| + OpNeed(e) <= MAXSTACK && |m.nums| + NumNeed(e) <= MAXSTACK
  }

  /** What evaluating the tree would leave of the machine. */
  function Evaluated(m: Machine, e: Expr): Outcome {
    match Eval(e, m.store)
    case Fault(s) => Err(s)
    case Got(i, s) => Run(Machine(m.ops, m.nums + [i], s, LastOf(e), m.log + Rpn(e)))
  }

  predicate Agrees(m: Machine, e: Expr) {
    if Fits(m, e) then Complete(m, e) == Evaluated(m, e) else Complete(m, e).Err?
  }

  /** An operand token right after a comma throws the operand before the comma away. */
  lemma {:induction false} CommaDrops(m: Machine, e: Expr)
    requires LeadsWithOperand(e) && m.last == AfterOp(Comma) && m.nums != []
    ensures ReadTree(m, e) == ReadTree(DiscardComma(m).(last := AtStart), e)
  {
    LeadingOperand(e);
    var t := Toks(e)[0];
    assert StepTok(m, t) == StepTok(DiscardComma(m).(last := AtStart), t);
  }

  lemma LeadingOperand(e: Expr)
    requires LeadsWithOperand(e)
    ensures !Toks(e)[0].Sym?
  {
  }

  /** The outcome of an effect that replaces operands: the stacks below it, the value on top. */
  function Landed(e: Effect, ops: seq<Op>, nums: seq<Item>, last: Last, log: seq<Act>): Outcome {
    match e
    case Bad(s) => Err(s)
    case Good(v, s) => Run(Machine(ops, nums + [Lit(v)], s, last, log))
  }

  function UnaryEffect(op: Op, i: Item, s: Store): Effect
    requires Unary(op)
  {
    if op.Postfix? then ApplyPostfix(op.inc, i, s) else ApplyPrefix(op.pre, i, s)
  }

  lemma FireUnary(ops: seq<Op>, op: Op, nums: seq<Item>, i: Item, s: Store, last: Last, log: seq<Act>)
    requires Unary(op)
    ensures DrainTo(Machine(ops + [op], nums + [i], s, last, log), |ops|) ==
            Landed(UnaryEffect(op, i, s), ops, nums, last, log + [Fired(op)])
  {
    var m := Machine(ops + [op], nums + [i], s, last, log);
    FireOne(m, |ops|);
    assert m.ops[..|ops|] == ops && m.nums[..|nums|] == nums;
  }

  lemma FireBinary(ops: seq<Op>, op: BinOp, nums: seq<Item>, i: Item, j: Item, s: Store, last: Last, log: seq<Act>)
    ensures DrainTo(Machine(ops + [Infix(op)], nums + [i] + [j], s, last, log), |ops|) ==
            Landed(ApplyInfix(op, i, j, s), ops, nums, last, log + [Fired(Infix(op))])
  {
    var m := Machine(ops + [Infix(op)], nums + [i] + [j], s, last, log);
    FireOne(m, |ops|);
    assert m.ops[..|ops|] == ops && m.nums[..|nums|] == nums;
  }

  /** The machine is about to read e, which meets the comma condition. */
  predicate Ready(m: Machine, e: Expr) {
    && WellFormed(e) && BadCommas(e) == 0
    && OperandExpected(m) && m.last != AfterOp(Comma)
    && Admits(m.ops, e) && |m.ops| <= MAXSTACK
  }

  lemma AgreesPre(m: Machine, op: PreOp, a: Expr)
    requires Ready(m, Pre(op, a))
    requires var p := Pushed(Run(m), Prefix(op)); p.Run? ==> Agrees(p.m, a)
    ensures Agrees(m, Pre(op, a))
  {
    ReadPre(m, op, a);
    hide Shunt, StepTok, RunToks, Toks, ApplyPrefix;
    var p := Pushed(Run(m), Prefix(op));
    if p.Run? {
      CompleteOver(p.m, a, |m.ops|);
      if Fits(p.m, a) && Eval(a, m.store).Got? {
        var Got(i, s) := Eval(a, m.store);
        assert Complete(p.m, a) == Run(Machine(m.ops + [Prefix(op)], m.nums + [i], s, LastOf(a), m.log + Rpn(a)));
        FireUnary(m.ops, Prefix(op), m.nums, i, s, LastOf(a), m.log + Rpn(a));
        assert m.log + Rpn(a) + [Fired(Prefix(op))] == m.log + Rpn(Pre(op, a));
      }
    }
  }

  lemma AgreesPost(m: Machine, op: IncDec, a: Expr)
    requires Ready(m, Post(op, a)) && Agrees(m, a)
    ensures Agrees(m, Post(op, a))
  {
    Shape(m, a);
    ReadPost(m, op, a);
    FitsPost(m, op, a);
    hide Toks, RunToks, Spine, Height, Ready, WellFormed, Admits, Fits, Complete, Eval;
    if Fits(m, a) && |m.ops| < MAXSTACK {
      PostEvaluates(m, op, a);
    } else {
      assert Complete(m, Post(op, a)) == DrainNext(ReadTree(m, Post(op, a)), |m.ops|) by { CompletePost(m, op, a); }
    }
  }

  lemma CompletePost(m: Machine, op: IncDec, a: Expr)
    ensures Complete(m, Post(op, a)) == DrainNext(ReadTree(m, Post(op, a)), |m.ops|)
  {}

  lemma PostEvaluates(m: Machine, op: IncDec, a: Expr)
    requires ReadTree(m, Post(op, a)) == Pushed(Complete(m, a), Postfix(op))
    requires Complete(m, a) == Evaluated(m, a) && |m.ops| < MAXSTACK
    ensures Complete(m, Post(op, a)) == Evaluated(m, Post(op, a))
  {
    CompletePost(m, op, a);
    hide Complete, ReadTree, DrainTo, ApplyPostfix;
    if Eval(a, m.store).Got? {
      var Got(i, s) := Eval(a, m.store);
      FireUnary(m.ops, Postfix(op), m.nums, i, s, AfterOp(Postfix(op)), m.log + Rpn(a));
      assert m.log + Rpn(a) + [Fired(Postfix(op))] == m.log + Rpn(Post(op, a));
    }
  }

  lemma FitsPost(m: Machine, op: IncDec, a: Expr)
    ensures Fits(m, Post(op, a)) <==> Fits(m, a) && |m.ops| < MAXSTACK
  {}

  // The machine between the operator and the right operand.
  function AfterLeft(m: Machine, op: BinOp, l: Expr, i: Item, s1: Store): Machine {
    Machine(m.ops + [Infix(op)], m.nums + [i], s1, AfterOp(Infix(op)), m.log + Rpn(l))
  }

  function Combined(m: Machine, op: BinOp, i: Item, r: Result, last: Last, log: seq<Act>): Outcome
  {
    match r
    case Fault(s) => Err(s)
    case Got(j, s) => Landed(ApplyInfix(op, i, j, s), m.ops, m.nums, last, log)
  }

  lemma EvaluatedBin(m: Machine, op: BinOp, l: Expr, r: Expr, i: Item, s1: Store)
    requires Eval(l, m.store) == Got(i, s1)
    ensures Evaluated(m, Bin(op, l, r)) ==
            Combined(m, op, i, Eval(r, s1), LastOf(r), m.log + Rpn(Bin(op, l, r)))
  {
  }

  lemma RpnBin(m: Machine, op: BinOp, l: Expr, r: Expr)
    ensures m.log + Rpn(l) + Rpn(r) + [Fired(Infix(op))] == m.log + Rpn(Bin(op, l, r))
  {
  }

  lemma AgreesRight(m: Machine, op: BinOp, l: Expr, r: Expr, i: Item, s1: Store)
    requires Agrees(AfterLeft(m, op, l, i, s1), r)
    ensures var m2 := AfterLeft(m, op, l, i, s1);
            var c := DrainNext(Complete(m2, r), |m.ops|);
            if Fits(m2, r) then c == Combined(m, op, i, Eval(r, s1), LastOf(r), m.log + Rpn(Bin(op, l, r)))
            else c.Err?
  {
    var m2 := AfterLeft(m, op, l, i, s1);
    if Fits(m2, r) {
      match Eval(r, s1)
      case Fault(_) =>
      case Got(j, s) =>
        var done := Machine(m.ops + [Infix(op)], m.nums + [i] + [j], s, LastOf(r), m2.log + Rpn(r));
        assert Complete(m2, r) == Run(done);
        FireBinary(m.ops, op, m.nums, i, j, s, LastOf(r), m2.log + Rpn(r));
        RpnBin(m, op, l, r);
    }
  }

  lemma FitsBin(m: Machine, op: BinOp, l: Expr, r: Expr, i: Item, s1: Store)
    ensures Fits(m, Bin(op, l, r)) <==>
            Fits(m, l) && |m.ops| < MAXSTACK && Fits(AfterLeft(m, op, l, i, s1), r)
  {
  }

  lemma AgreesBin(m: Machine, op: BinOp, l: Expr, r: Expr)
    requires Ready(m, Bin(op, l, r))
    requires Agrees(m, l)
    requires var p := Pushed(Complete(m, l), Infix(op)); p.Run? ==> Agrees(p.m, r)
    ensures Agrees(m, Bin(op, l, r))
  {
    AdmitsBin(m, op, l, r);
    Shape(m, l);
    ReadBin(m, op, l, r);
    match Eval(l, m.store)
    case Fault(_) =>
    case Got(i, s1) =>
      FitsBin(m, op, l, r, i, s1);
      if Fits(m, l) && |m.ops| < MAXSTACK {
        var m2 := AfterLeft(m, op, l, i, s1);
        assert Pushed(Complete(m, l), Infix(op)) == Run(m2);
        CompleteOver(m2, r, |m.ops|);
        AgreesRight(m, op, l, r, i, s1);
        EvaluatedBin(m, op, l, r, i, s1);
      }
  }

  // The machine once the operand before a comma has been thrown away.
  function AfterComma(m: Machine, l: Expr, s1: Store): Machine {
    Machine(m.ops, m.nums, s1, AtStart, m.log + Rpn(l) + [Discarded])
  }

  lemma ReadAfterComma(m: Machine, l: Expr, r: Expr, i: Item, s1: Store)
    requires WellFormed(Then(l, r)) && Admits(m.ops, Then(l, r)) && LeadsWithOperand(r)
    requires Spine(m, l) && Complete(m, l) == Run(Machine(m.ops, m.nums + [i], s1, LastOf(l), m.log + Rpn(l)))
    ensures ReadTree(m, Then(l, r)) == ReadTree(AfterComma(m, l, s1), r)
  {
    ReadThen(m, l, r);
    var p := Machine(m.ops, m.nums + [i], s1, AfterOp(Comma), m.log + Rpn(l));
    CommaDrops(p, r);
    assert DiscardComma(p).nums == m.nums;
  }

  lemma RpnThen(m: Machine, l: Expr, r: Expr)
    ensures m.log + Rpn(l) + [Discarded] + Rpn(r) == m.log + Rpn(Then(l, r))
  {
  }

  lemma AgreesThen(m: Machine, l: Expr, r: Expr)
    requires Ready(m, Then(l, r)) && Agrees(m, l)
    requires Eval(l, m.store).Got? ==> Agrees(AfterComma(m, l, Eval(l, m.store).store), r)
    ensures Agrees(m, Then(l, r))
  {
    Shape(m, l);
    if Fits(m, l) && Eval(l, m.store).Got? {
      var Got(i, s1) := Eval(l, m.store);
      ReadAfterComma(m, l, r, i, s1);
      RpnThen(m, l, r);
    } else {
      ReadThen(m, l, r);
    }
  }

  lemma AgreesParen(m: Machine, a: Expr)
    requires Ready(m, Paren(a))
    requires var p := Pushed(Run(m), LParen); p.Run? ==> Agrees(p.m, a)
    ensures Agrees(m, Paren(a))
  {
    var p := Pushed(Run(m), LParen);
    if p.Run? { Shape(p.m, a); }
    ReadParen(m, a);
    if |m.ops| < MAXSTACK { assert (m.ops + [LParen])[..|m.ops|] == m.ops; }
  }

  lemma AgreesAtom(m: Machine, e: Expr)
    requires (e.Const? || e.Var?) && Ready(m, e)
    ensures Agrees(m, e)
  {
    RunOne(m, Toks(e)[0]);
  }

  lemma ReadyPre(m: Machine, op: PreOp, a: Expr)
    requires Ready(m, Pre(op, a))
    ensures var p := Pushed(Run(m), Prefix(op)); p.Run? ==> Ready(p.m, a)
  {
  }

  lemma ReadyBin(m: Machine, op: BinOp, l: Expr, r: Expr)
    requires Ready(m, Bin(op, l, r))
    ensures Ready(m, l)
    ensures var p := Pushed(Complete(m, l), Infix(op)); p.Run? ==> Ready(p.m, r)
  {
    AdmitsBin(m, op, l, r);
    Shape(m, l);
  }

  lemma ReadyParen(m: Machine, a: Expr)
    requires Ready(m, Paren(a))
    ensures var p := Pushed(Run(m), LParen); p.Run? ==> Ready(p.m, a)
  {
  }

  /** Reading a tree and completing it is evaluating it, when the stacks are high enough for
      it, and a failure when they are not. */
  lemma {:induction false} Agreement(m: Machine, e: Expr)
    requires Ready(m, e)
    ensures Agrees(m, e)
    decreases e
  {
    match e
    case Const(_) => AgreesAtom(m, e);
    case Var(_) => AgreesAtom(m, e);
    case Pre(op, a) =>
      ReadyPre(m, op, a);
      var p := Pushed(Run(m), Prefix(op));
      if p.Run? { Agreement(p.m, a); }
      AgreesPre(m, op, a);
    case Post(op, a) =>
      Agreement(m, a);
      AgreesPost(m, op, a);
    case Bin(op, l, r) =>
      ReadyBin(m, op, l, r);
      Agreement(m, l);
      var p := Pushed(Complete(m, l), Infix(op));
      if p.Run? { Agreement(p.m, r); }
      AgreesBin(m, op, l, r);
    case Then(l, r) =>
      Agreement(m, l);
      if Eval(l, m.store).Got? { Agreement(AfterComma(m, l, Eval(l, m.store).store), r); }
      AgreesThen(m, l, r);
    case Paren(a) =>
      ReadyParen(m, a);
      var p := Pushed(Run(m), LParen);
      if p.Run? { Agreement(p.m, a); }
      AgreesParen(m, a);
  }

  /* ----- the main theorem ----- */

  function Answered(e: Expr, s: Store): Answer {
    match Eval(e, s)
    case Fault(s') => Failed(s')
    case Got(i, s') => Value(ArithOps.Read(i, s'), s', Rpn(e))
  }

  predicate Supported(e: Expr) {
    BadCommas(e) == 0 && OpNeed(e) <= 64 && NumNeed(e) <= 64
  }

  /** Expanding the infix form of a tree gives the value, the final store and the failure of
      post-order evaluation, and acts in reverse Polish order, exactly when every comma is
      followed by an operand token and neither stack needs more than 64 entries; otherwise
      the expansion fails. */
  lemma ExpandTree(e: Expr, s: Store)
    requires WellFormed(e)
    ensures if Supported(e) then Expand(Toks(e), s) == Answered(e, s) else Expand(Toks(e), s).Failed?
  {
    var m := Start(s);
    ExpandCompletes(e, s);
    assert OperandExpected(m) && Admits(m.ops, e) && m.last != AfterOp(Comma);
    hide Expand, Complete, WellFormed;
    hide Rpn, OpNeed, NumNeed, BadCommas, Admits;
    if BadCommas(e) == 0 {
      Agreement(m, e);
      AgreedAnswer(e, s);
    } else {
      Shape(m, e);
      hide Spine;
    }
  }

  // The reply once the stacks are empty again.
  lemma AgreedAnswer(e: Expr, s: Store)
    requires Agrees(Start(s), e)
    ensures var r := Finish(Complete(Start(s), e));
            if Fits(Start(s), e) then r == Answered(e, s) else r.Failed?
  {
    hide Complete, Fits, Rpn, Eval;
  }

  lemma ExpandCompletes(e: Expr, s: Store)
    ensures Expand(Toks(e), s) == Finish(Complete(Start(s), e))
  {
    var r := ReadTree(Start(s), e);
    if r.Run? { DrainSplit(r.m, 0, 0); }
    hide RunToks, Toks;
  }

  /** A comma before a prefix operator makes any expression fail, `1, -2` for one, whose value
      is -2. */
  lemma CommaBeforeUnary(l: Expr, op: PreOp, a: Expr, s: Store)
    requires WellFormed(Then(l, Pre(op, a)))
    ensures Expand(Toks(l) + [Sym(Comma)] + ([Sym(Spelling(Prefix(op)))] + Toks(a)), s).Failed?
    ensures Eval(Then(Const(1), Pre(Minus, Const(2))), s) == Got(Lit(-2), s)
  {
    var e := Then(l, Pre(op, a));
    assert Toks(e) == Toks(l) + [Sym(Comma)] + Toks(Pre(op, a));
    assert BadCommas(e) > 0;
    assert Eval(Const(2), s) == Got(Lit(2), s);
    assert Eval(Pre(Minus, Const(2)), s) == Got(Lit(-2), s);
    hide Expand, Toks, WellFormed, BadCommas;
    ExpandTree(e, s);
  }
}
