/** The evaluator as it runs: two fixed arrays with their counters, an error flag and a
    variable store, updated in place and proved against the machine on values. */
module ArithEvaluator {
  import opened ArithOps
  import M = ArithMachine

  // A number, the empty string of a blank expression, or NULL.
  datatype Reply = Number(v: int) | Empty | Null

  class Evaluator {
    const opstack: array<Op>
    const numstack: array<Item>
    var nopstack: nat
    var nnumstack: nat
    var error: bool
    var store: Store
    var lastop: M.Last
    ghost var log: seq<M.Act>

    ghost predicate Valid()
      reads this
    {
      && opstack.Length == M.MAXSTACK && numstack.Length == M.MAXSTACK
      && nopstack <= M.MAXSTACK && nnumstack <= M.MAXSTACK
    }

    ghost function State(): M.Machine
      reads this, opstack, numstack
      requires Valid()
    {
      M.Machine(opstack[..nopstack], numstack[..nnumstack], store, lastop, log)
    }

    /** The evaluator has taken a step of the machine: it is in the state the step gives, or
        its error flag is up and the store is as the failure left it. */
    ghost predicate Took(r: M.Outcome)
      reads this, opstack, numstack
    {
      && Valid()
      && match r
         case Err(s) => error && store == s
         case Run(m) => !error && State() == m
    }

    constructor (s: Store)
      ensures Valid() && fresh(opstack) && fresh(numstack)
      ensures State() == M.Start(s) && !error
    {
      opstack := new Op[M.MAXSTACK](_ => LParen);
      numstack := new Item[M.MAXSTACK](_ => Lit(0));
      nopstack, nnumstack, error, store, lastop, log := 0, 0, false, s, M.AtStart, [];
    }

    method PushOp(op: Op)
      requires Valid() && !error
      modifies `nopstack, `error, opstack
      ensures Took(M.PushOp(old(State()), op))
    {
      if nopstack > M.MAXSTACK - 1 {
        error := true;
        return;
      }
      opstack[nopstack] := op;
      nopstack := nopstack + 1;
    }

    method PopOp() returns (op: Op)
      requires Valid()
      modifies `nopstack, `error
      ensures Valid()
      ensures old(nopstack) == 0 ==> error && nopstack == 0
      ensures old(nopstack) > 0 ==> error == old(error) && nopstack == old(nopstack) - 1 && op == opstack[nopstack]
    {
      if nopstack == 0 {
        error := true;
        return LParen;
      }
      nopstack := nopstack - 1;
      op := opstack[nopstack];
    }

    method PushNum(i: Item)
      requires Valid()
      modifies `nnumstack, `error, numstack
      ensures Valid()
      ensures old(nnumstack) == M.MAXSTACK ==> error && nnumstack == old(nnumstack) && numstack[..] == old(numstack[..])
      ensures old(nnumstack) < M.MAXSTACK ==>
                error == old(error) && numstack[..nnumstack] == old(numstack[..nnumstack]) + [i]
    {
      if nnumstack > M.MAXSTACK - 1 {
        error := true;
        return;
      }
      numstack[nnumstack] := i;
      nnumstack := nnumstack + 1;
    }

    method PopNum() returns (i: Item)
      requires Valid()
      modifies `nnumstack, `error
      ensures Valid()
      ensures old(nnumstack) == 0 ==> error && nnumstack == 0
      ensures old(nnumstack) > 0 ==> error == old(error) && nnumstack == old(nnumstack) - 1 && i == numstack[nnumstack]
    {
      if nnumstack == 0 {
        error := true;
        return Lit(0);
      }
      nnumstack := nnumstack - 1;
      i := numstack[nnumstack];
    }

    // push_numstackl(pop->eval(...)) once the operands are off the stack.
    method Conclude(e: Effect, op: Op)
      requires Valid() && !error && nnumstack < M.MAXSTACK
      modifies `nnumstack, `error, `store, `log, numstack
      ensures Valid() && store == e.store
      ensures e.Bad? ==> error
      ensures e.Good? ==> !error && numstack[..nnumstack] == old(numstack[..nnumstack]) + [Lit(e.v)]
      ensures log == old(log) + [M.Fired(op)]
    {
      store := e.store;
      log := log + [M.Fired(op)];
      match e
      case Bad(_) => error := true;
      case Good(v, _) => PushNum(Lit(v));
    }

    /** Pops the operator on top and applies it, the step all loops of shunt_op share. */
    method FireTop()
      requires Valid() && !error && nopstack > 0
      modifies `nopstack, `nnumstack, `error, `store, `log, numstack
      ensures Took(M.Fire(old(State())))
    {
      hide ApplyPostfix, ApplyPrefix, ApplyInfix;
      ghost var ops, nums := opstack[..nopstack], numstack[..nnumstack];
      var op := PopOp();
      assert opstack[..nopstack] == ops[..|ops| - 1];
      var n1 := PopNum();
      if error { return; }
      assert numstack[..nnumstack] == nums[..|nums| - 1];
      match op
      case Postfix(inc) => Conclude(ApplyPostfix(inc, n1, store), op);
      case Prefix(pre) => Conclude(ApplyPrefix(pre, n1, store), op);
      case Infix(bin) =>
        var n2 := PopNum();
        if error { return; }
        assert numstack[..nnumstack] == nums[..|nums| - 2];
        Conclude(ApplyInfix(bin, n2, n1, store), op);
      case _ => error := true;
    }

    // The loop of shunt_op on `)` and `,`.
    method FireToParen()
      requires Valid() && !error
      modifies `nopstack, `nnumstack, `error, `store, `log, numstack
      ensures Took(M.FireToParen(old(State())))
    {
      hide M.Fire, M.FireToParen;
      while nopstack > 0 && opstack[nopstack - 1] != LParen
        invariant Valid() && !error
        invariant M.FireToParen(State()) == M.FireToParen(old(State()))
        decreases nopstack
      {
        M.ParenTurn(State());
        FireTop();
        if error { return; }
      }
      M.ParenTurn(State());
    }

    // Its loop on any other operator, whichever way the operator groups.
    method FireYielding(op: Op)
      requires Valid() && !error
      modifies `nopstack, `nnumstack, `error, `store, `log, numstack
      ensures Took(M.FireYielding(old(State()), op))
    {
      hide M.Fire, M.FireYielding, M.Yields;
      while nopstack > 0 && M.Yields(op, opstack[nopstack - 1])
        invariant Valid() && !error
        invariant M.FireYielding(State(), op) == M.FireYielding(old(State()), op)
        decreases nopstack
      {
        M.YieldTurn(State(), op);
        FireTop();
        if error { return; }
      }
      M.YieldTurn(State(), op);
    }

    method ShuntOp(op: Op)
      requires Valid()
      modifies `nopstack, `nnumstack, `error, `store, `log, opstack, numstack
      ensures Took(M.Shunt(old(State()), op))
    {
      error := false;
      if op == LParen {
        PushOp(op);
      } else if op == RParen || op == Comma {
        FireToParen();
        if error || op == Comma { return; }
        ghost var ops := opstack[..nopstack];
        var _ := PopOp();
        assert ops != [] ==> opstack[..nopstack] == ops[..|ops| - 1];
      } else {
        FireYielding(op);
        if error { return; }
        PushOp(op);
      }
    }

    // An operand token, after DISCARD_COMMA.
    method TakeOperand(i: Item)
      requires Valid() && !error
      modifies `nnumstack, `error, `log, `lastop, numstack
      ensures Took(M.WithLast(M.PushNum(M.DiscardComma(old(State())), i), M.AfterOperand))
    {
      ghost var nums := numstack[..nnumstack];
      if lastop == M.AfterOp(Comma) && nnumstack > 0 {
        var _ := PopNum();
        log := log + [M.Discarded];
        assert numstack[..nnumstack] == nums[..|nums| - 1];
      }
      log := log + [M.Operand(i)];
      PushNum(i);
      lastop := M.AfterOperand;
    }

    /** One turn of the main loop of arithm_expand. */
    method TakeTok(t: M.Tok)
      requires Valid() && !error
      modifies `nopstack, `nnumstack, `error, `store, `lastop, `log, opstack, numstack
      ensures Took(M.StepTok(old(State()), t))
    {
      match t
      case Num(n) =>
        if lastop == M.AfterOp(Comma) && nnumstack == 0 {
          error := true;
        } else {
          TakeOperand(Lit(n));
        }
      case Name(x) => TakeOperand(Ref(x));
      case Sym(raw) =>
        match M.Resolve(lastop, raw)
        case None => error := true;
        case Some(op) =>
          ShuntOp(op);
          lastop := M.AfterOp(op);
    }

    // The final drain.
    method DrainAll()
      requires Valid() && !error
      modifies `nopstack, `nnumstack, `error, `store, `log, numstack
      ensures Took(M.DrainTo(old(State()), 0))
    {
      hide M.Fire, M.DrainTo;
      while nopstack > 0
        invariant Valid() && !error
        invariant M.DrainTo(State(), 0) == M.DrainTo(old(State()), 0)
        decreases nopstack
      {
        M.DrainTurn(State());
        FireTop();
        if error { return; }
      }
      M.DrainTurn(State());
    }

    // The main loop.
    method TakeAll(ts: seq<M.Tok>)
      requires Valid() && !error
      modifies `nopstack, `nnumstack, `error, `store, `lastop, `log, opstack, numstack
      ensures Took(M.RunToks(old(State()), ts))
    {
      var i := 0;
      while i < |ts|
        invariant 0 <= i <= |ts| && Valid() && !error
        invariant M.RunToks(State(), ts[i..]) == M.RunToks(old(State()), ts)
      {
        ghost var rest := ts[i..];
        TakeTok(ts[i]);
        assert rest[0] == ts[i] && rest[1..] == ts[i + 1..];
        if error { return; }
        i := i + 1;
      }
      assert ts[i..] == [];
    }

    /** arithm_expand: the reply and the final store are those of the machine on values, so all
        that is proved of `Expand` holds of the evaluator as it runs. */
    method ArithmExpand(ts: seq<M.Tok>) returns (r: Reply)
      requires Valid()
      modifies `nopstack, `nnumstack, `error, `store, `lastop, `log, opstack, numstack
      ensures Valid()
      ensures match M.Expand(ts, old(store))
              case Value(v, s, acts) => r == Number(v) && store == s && log == acts
              case Blank(s) => r == Empty && store == s
              case Failed(s) => r == Null && store == s
    {
      nopstack, nnumstack, error, lastop, log := 0, 0, false, M.AtStart, [];
      assert State() == M.Start(store);
      TakeAll(ts);
      if error { return Null; }
      DrainAll();
      if error { return Null; }
      if nnumstack == 0 { return Empty; }
      if nnumstack != 1 { return Null; }
      r := Number(Read(numstack[0], store));
    }
  }
}
