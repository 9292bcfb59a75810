/** What holds of the two-stack machine on every token sequence, well formed or not. */
module ArithRuns {
  import opened Basics
  import opened ArithOps
  import opened ArithMachine

  /* ----- what the stacks and the log add up to ----- */

  function OneIf(c: bool): nat { if c then 1 else 0 }

  // How often op has been fired.
  function TimesFired(op: Op, log: seq<Act>): nat {
    if log == [] then 0
    else TimesFired(op, log[..|log| - 1]) + OneIf(log[|log| - 1] == Fired(op))
  }

  // How often op stands on the stack.
  function TimesPending(op: Op, ops: seq<Op>): nat {
    if ops == [] then 0
    else TimesPending(op, ops[..|ops| - 1]) + OneIf(ops[|ops| - 1] == op)
  }

  function Total(op: Op, m: Machine): nat { TimesFired(op, m.log) + TimesPending(op, m.ops) }

  /** Operands pushed, less binary operators fired and operands thrown away by commas. */
  function Surplus(log: seq<Act>): int {
    if log == [] then 0
    else Surplus(log[..|log| - 1]) + Gain(log[|log| - 1])
  }

  function Gain(a: Act): int {
    match a
    case Operand(_) => 1
    case Discarded => -1
    case Fired(op) => if op.Infix? then -1 else 0
  }

  // b may stand on top of a.
  predicate Climbs(a: Op, b: Op) {
    b == LParen || Prec(a) < Prec(b) || (Prec(a) == Prec(b) && RightLevel(Prec(b)))
  }

  /** Between parentheses precedence never decreases up the stack, and equal neighbours
      occur only at the levels that group from the right. */
  predicate Sorted(ops: seq<Op>) {
    && (forall k :: 0 <= k < |ops| ==> Evaluable(ops[k]) || ops[k] == LParen)
    && (forall k :: 0 < k < |ops| ==> Climbs(ops[k - 1], ops[k]))
  }

  predicate Balanced(m: Machine) {
    && Sorted(m.ops) && |m.ops| <= MAXSTACK && |m.nums| <= MAXSTACK
    && Surplus(m.log) == |m.nums|
  }

  lemma LogSnoc(log: seq<Act>, a: Act, o: Op)
    ensures TimesFired(o, log + [a]) == TimesFired(o, log) + OneIf(a == Fired(o))
    ensures Surplus(log + [a]) == Surplus(log) + Gain(a)
  {
    assert (log + [a])[..|log|] == log;
  }

  lemma OpsSnoc(ops: seq<Op>, op: Op, o: Op)
    ensures TimesPending(o, ops + [op]) == TimesPending(o, ops) + OneIf(op == o)
  {
    assert (ops + [op])[..|ops|] == ops;
  }

  /* ----- firing ----- */

  // One operator has been fired.
  predicate Popped(m: Machine, m': Machine) {
    && m.ops != [] && Evaluable(m.ops[|m.ops| - 1])
    && m'.ops == m.ops[..|m.ops| - 1] && m'.last == m.last
    && m'.log == m.log + [Fired(m.ops[|m.ops| - 1])]
    && |m'.nums| == |m.nums| + Gain(Fired(m.ops[|m.ops| - 1]))
  }

  lemma FirePops(m: Machine)
    requires m.ops != []
    ensures Fire(m).Run? ==> Popped(m, Fire(m).m)
  {
  }

  /** Firing keeps the balance, the parentheses and, for every operator o, the number of
      times o was read. */
  predicate Advanced(m: Machine, m': Machine, o: Op) {
    && Balanced(m') && m'.last == m.last && m'.ops <= m.ops
    && Total(o, m') == Total(o, m)
    && TimesPending(LParen, m'.ops) == TimesPending(LParen, m.ops)
  }

  lemma SortedPrefix(ops: seq<Op>, n: nat)
    requires Sorted(ops) && n <= |ops|
    ensures Sorted(ops[..n])
  {
  }

  lemma PoppedAdvances(m: Machine, m': Machine, o: Op)
    requires Balanced(m) && Popped(m, m')
    ensures Advanced(m, m', o)
  {
    var op := m.ops[|m.ops| - 1];
    LogSnoc(m.log, Fired(op), o);
    OpsSnoc(m'.ops, op, o);
    OpsSnoc(m'.ops, op, LParen);
    assert m.ops == m'.ops + [op];
    SortedPrefix(m.ops, |m.ops| - 1);
  }

  lemma {:induction false} YieldAdvances(m: Machine, op: Op, o: Op)
    requires Balanced(m)
    ensures var r := FireYielding(m, op); r.Run? ==>
      Advanced(m, r.m, o) && (r.m.ops == [] || !Yields(op, r.m.ops[|r.m.ops| - 1]))
    decreases |m.ops|
  {
    hide Sorted, TimesFired, TimesPending, Surplus, Fire, Yields;
    if m.ops != [] && Yields(op, m.ops[|m.ops| - 1]) {
      FirePops(m);
      var f := Fire(m);
      if f.Run? {
        PoppedAdvances(m, f.m, o);
        YieldAdvances(f.m, op, o);
      }
    }
  }

  lemma {:induction false} ParenAdvances(m: Machine, o: Op)
    requires Balanced(m)
    ensures var r := FireToParen(m); r.Run? ==>
      Advanced(m, r.m, o) && (r.m.ops == [] || r.m.ops[|r.m.ops| - 1] == LParen)
    decreases |m.ops|
  {
    hide Sorted, TimesFired, TimesPending, Surplus;
    if m.ops != [] && m.ops[|m.ops| - 1] != LParen {
      FirePops(m);
      var f := Fire(m);
      if f.Run? {
        PoppedAdvances(m, f.m, o);
        ParenAdvances(f.m, o);
      }
    }
  }

  lemma {:induction false} DrainAdvances(m: Machine, o: Op)
    requires Balanced(m)
    ensures var r := DrainTo(m, 0); r.Run? ==> Advanced(m, r.m, o) && r.m.ops == []
    decreases |m.ops|
  {
    hide Sorted, TimesFired, TimesPending, Surplus;
    if m.ops != [] {
      FirePops(m);
      var f := Fire(m);
      if f.Run? {
        PoppedAdvances(m, f.m, o);
        DrainAdvances(f.m, o);
      }
    }
  }

  /* ----- one token ----- */

  /** m' has read the operator op. */
  predicate HasRead(m: Machine, m': Machine, op: Op, o: Op) {
    && Balanced(m') && m'.last == m.last
    && Total(o, m') == Total(o, m) + OneIf(Evaluable(op) && op == o)
    && Opened(TimesPending(LParen, m.ops), op) == Some(TimesPending(LParen, m'.ops))
  }

  // The parentheses open after an operator token; None when it closes one that is not open.
  function Opened(depth: nat, op: Op): Option<nat> {
    if op == LParen then Some(depth + 1)
    else if op == RParen then (if depth == 0 then None else Some(depth - 1))
    else Some(depth)
  }

  lemma SortedPush(ops: seq<Op>, op: Op)
    requires Sorted(ops)
    requires op == LParen || (Evaluable(op) && (ops == [] || !Yields(op, ops[|ops| - 1])))
    ensures Sorted(ops + [op])
  {
    var all := ops + [op];
    assert forall k :: 0 <= k < |ops| ==> all[k] == ops[k];
    assert ops != [] ==> Climbs(ops[|ops| - 1], op);
  }

  lemma PushReads(m: Machine, op: Op, o: Op)
    requires Balanced(m) && |m.ops| < MAXSTACK && o != LParen
    requires op == LParen || (Evaluable(op) && (m.ops == [] || !Yields(op, m.ops[|m.ops| - 1])))
    ensures HasRead(m, m.(ops := m.ops + [op]), op, o)
  {
    OpsSnoc(m.ops, op, o);
    OpsSnoc(m.ops, op, LParen);
    SortedPush(m.ops, op);
  }

  lemma CloseReads(m: Machine, o: Op)
    requires Balanced(m) && m.ops != [] && m.ops[|m.ops| - 1] == LParen && o != LParen
    ensures HasRead(m, m.(ops := m.ops[..|m.ops| - 1]), RParen, o)
  {
    hide Sorted;
    var rest := m.ops[..|m.ops| - 1];
    OpsSnoc(rest, LParen, o);
    OpsSnoc(rest, LParen, LParen);
    assert m.ops == rest + [LParen];
    SortedPrefix(m.ops, |m.ops| - 1);
  }

  lemma ShuntReads(m: Machine, op: Op, o: Op)
    requires Balanced(m) && o != LParen
    ensures var r := Shunt(m, op); r.Run? ==> HasRead(m, r.m, op, o)
  {
    hide Sorted, TimesFired, TimesPending, Surplus;
    if op == LParen {
      if |m.ops| < MAXSTACK { PushReads(m, op, o); }
    } else if op == RParen || op == Comma {
      ParenAdvances(m, o);
      var f := FireToParen(m);
      if op == RParen && f.Run? && f.m.ops != [] { CloseReads(f.m, o); }
    } else {
      YieldAdvances(m, op, o);
      var f := FireYielding(m, op);
      if f.Run? && |f.m.ops| < MAXSTACK { PushReads(f.m, op, o); }
    }
  }

  // How often the token is the operator o, given what came before it.
  function TimesIn(o: Op, last: Last, t: Tok): nat {
    match t
    case Sym(raw) => OneIf(Resolve(last, raw) == Some(o))
    case _ => 0
  }

  function NextLast(last: Last, t: Tok): Last {
    match t
    case Sym(raw) =>
      (match Resolve(last, raw)
       case Some(op) => AfterOp(op)
       case None => last)
    case _ => AfterOperand
  }

  function NextDepth(depth: nat, t: Tok): Option<nat> {
    match t
    case Sym(op) => Opened(depth, op)
    case _ => Some(depth)
  }

  lemma OperandReads(m: Machine, i: Item, o: Op)
    requires Balanced(m)
    ensures var r := PushNum(DiscardComma(m), i); r.Run? ==>
      Balanced(r.m) && r.m.ops == m.ops && Total(o, r.m) == Total(o, m)
  {
    LogSnoc(m.log, Discarded, o);
    var d := DiscardComma(m);
    LogSnoc(d.log, Operand(i), o);
  }

  lemma StepReads(m: Machine, t: Tok, o: Op)
    requires Balanced(m) && Evaluable(o)
    ensures var r := StepTok(m, t); r.Run? ==>
      && Balanced(r.m) && r.m.last == NextLast(m.last, t)
      && Total(o, r.m) == Total(o, m) + TimesIn(o, m.last, t)
      && NextDepth(TimesPending(LParen, m.ops), t) == Some(TimesPending(LParen, r.m.ops))
  {
    hide Sorted, TimesFired, TimesPending, Surplus;
    match t
    case Num(n) => OperandReads(m, Lit(n), o);
    case Name(x) => OperandReads(m, Ref(x), o);
    case Sym(raw) =>
      var op := Resolve(m.last, raw);
      if op.Some? { ShuntReads(m, op.value, o); }
  }

  /* ----- whole runs ----- */

  /** How often o was meant by a token sequence: - and + count as unary where an operand is
      expected and as binary elsewhere. */
  function TimesRead(o: Op, last: Last, ts: seq<Tok>): nat
    decreases |ts|
  {
    if ts == [] then 0
    else TimesIn(o, last, ts[0]) + TimesRead(o, NextLast(last, ts[0]), ts[1..])
  }

  /** The parentheses left open by a token sequence; None when a `)` has no partner. */
  function OpenAfter(depth: nat, ts: seq<Tok>): Option<nat>
    decreases |ts|
  {
    if ts == [] then Some(depth)
    else match NextDepth(depth, ts[0])
      case None => None
      case Some(d) => OpenAfter(d, ts[1..])
  }

  /** Every state a run can reach keeps its stacks sorted and within bounds, every operator
      read so far is either fired or pending, and the parentheses still open are on the stack. */
  lemma {:induction false} RunReads(m: Machine, ts: seq<Tok>, o: Op)
    requires Balanced(m) && Evaluable(o)
    ensures var r := RunToks(m, ts); r.Run? ==>
      && Balanced(r.m)
      && Total(o, r.m) == Total(o, m) + TimesRead(o, m.last, ts)
      && OpenAfter(TimesPending(LParen, m.ops), ts) == Some(TimesPending(LParen, r.m.ops))
    decreases |ts|
  {
    if ts != [] {
      StepReads(m, ts[0], o);
      var r := StepTok(m, ts[0]);
      if r.Run? { RunReads(r.m, ts[1..], o); }
    }
  }

  /** Conservation: when any token sequence at all yields a value, every operator read was
      fired exactly once, one operand more was pushed than binary operators were fired and
      commas discarded, and the parentheses match. */
  lemma Conservation(ts: seq<Tok>, s: Store, o: Op)
    requires Expand(ts, s).Value? && Evaluable(o)
    ensures TimesFired(o, Expand(ts, s).log) == TimesRead(o, AtStart, ts)
    ensures Surplus(Expand(ts, s).log) == 1
    ensures OpenAfter(0, ts) == Some(0)
  {
    var m := Start(s);
    RunReads(m, ts, o);
    var r := RunToks(m, ts);
    DrainAdvances(r.m, o);
  }

  /* ----- how high the operator stack can get ----- */

  // The most operators a sorted stack can hold from its last `(` on, by the top's precedence.
  function Climb(level: nat): nat {
    if level == 0 then 0 else if level < 8 then 1 else if level < 18 then level - 7 else 11
  }

  lemma {:induction false} SortedHeight(ops: seq<Op>)
    requires Sorted(ops)
    requires forall k :: 0 <= k < |ops| ==> !RightLevel(Prec(ops[k]))
    ensures |ops| <= 12 * TimesPending(LParen, ops) + if ops == [] then 0 else Climb(Prec(ops[|ops| - 1]))
    decreases |ops|
  {
    if ops != [] {
      var rest := ops[..|ops| - 1];
      assert forall k :: 0 <= k < |rest| ==> rest[k] == ops[k];
      SortedHeight(rest);
      if rest != [] { assert Climbs(ops[|ops| - 2], ops[|ops| - 1]); }
    }
  }

  lemma {:induction false} PendingOne(ops: seq<Op>, k: nat)
    requires k < |ops|
    ensures TimesPending(ops[k], ops) >= 1
    decreases |ops|
  {
    if k < |ops| - 1 {
      assert ops[..|ops| - 1][k] == ops[k];
      PendingOne(ops[..|ops| - 1], k);
    }
  }

  // Tokens that mean no assignment, `**` or prefix operator.
  ghost predicate LeftGrouping(ts: seq<Tok>) {
    forall o :: Evaluable(o) && RightLevel(Prec(o)) ==> TimesRead(o, AtStart, ts) == 0
  }

  /** Tokens of left-grouping operators only never get the operator stack above 11 entries, and
      12 for each parenthesis left open: with at most four, above 59. */
  lemma LeftGroupingHeight(ts: seq<Tok>, s: Store)
    requires LeftGrouping(ts) && RunToks(Start(s), ts).Run?
    ensures OpenAfter(0, ts).Some? && |RunToks(Start(s), ts).m.ops| <= 12 * OpenAfter(0, ts).value + 11
  {
    var ops := RunToks(Start(s), ts).m.ops;
    RunReads(Start(s), ts, Infix(Assign));
    forall k | 0 <= k < |ops| ensures !RightLevel(Prec(ops[k])) {
      if RightLevel(Prec(ops[k])) {
        RunReads(Start(s), ts, ops[k]);
        PendingOne(ops, k);
      }
    }
    SortedHeight(ops);
  }
}
