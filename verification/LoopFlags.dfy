/** The executors as functions of the globals `cur_loop_level`, `req_break`, `req_continue` and
    `exit_status`: the specification of the imperative `Shell`. */
module LoopFlags {
  import opened Commands

  datatype Globals = Globals(level: int, brk: int, cont: int, status: int, trace: seq<Event>)

  // ok is the 1 or 0 an executor returns; NoFuel means the passes allowed to loops ran out.
  datatype Run = Out(ok: bool, g: Globals) | NoFuel

  // The test after every command: break or continue encountered inside a loop.
  predicate Leaving(g: Globals) { g.level != 0 && (g.brk != 0 || g.cont != 0) }

  // do_compound_list
  function RunProg(w: World, p: Prog, g: Globals, fuel: nat): Run
    decreases fuel, p, 2, 0
  {
    match p
    case Last(a) => RunAndOr(w, a, g, fuel)
    case Next(a, rest) =>
      match RunAndOr(w, a, g, fuel)
      case NoFuel => NoFuel
      case Out(ok, g1) => if !ok || Leaving(g1) then Out(ok, g1) else RunProg(w, rest, g1, fuel)
  }

  // do_and_or in the foreground
  function RunAndOr(w: World, a: AndOr, g: Globals, fuel: nat): Run
    decreases fuel, a, 2, 0
  {
    match RunCmd(w, a.cmd, g, fuel)
    case NoFuel => NoFuel
    case Out(ok, g1) => if !ok || Leaving(g1) then Out(ok, g1) else RunClauses(w, a.clauses, g1, fuel)
  }

  function RunClauses(w: World, cs: Clauses, g: Globals, fuel: nat): Run
    decreases fuel, cs, 2, 0
  {
    match cs
    case End => Out(true, g)
    case Clause(onSuccess, c, rest) =>
      if (g.status == 0) != onSuccess then RunClauses(w, rest, g, fuel)
      else match RunCmd(w, c, g, fuel)
        case NoFuel => NoFuel
        case Out(ok, g1) => if !ok || Leaving(g1) then Out(ok, g1) else RunClauses(w, rest, g1, fuel)
  }

  function RunCmd(w: World, c: Cmd, g: Globals, fuel: nat): Run
    decreases fuel, c, 2, 0
  {
    match c
    case Simple(name) =>
      (var g1 := g.(trace := g.trace + [Ran(name)]);
       match w.status(name, g.trace)
       case None => Out(false, g1)
       case Some(status) => Out(true, g1.(status := status)))
    case Break(n) =>
      if g.level == 0 || n < 1 then Out(true, g.(status := 1)) else Out(true, g.(brk := n, status := 0))
    case Continue(n) =>
      if g.level == 0 || n < 1 then Out(true, g.(status := 1)) else Out(true, g.(cont := n, status := 0))
    case Group(p) => RunProg(w, p, g, fuel)
    case If(t, p, e) =>
      (match RunProg(w, t, g, fuel)
       case NoFuel => NoFuel
       case Out(ok, g1) =>
         if !ok then Out(false, g1)
         else if g1.status == 0 then RunProg(w, p, g1, fuel)
         else if e.NoElse? then Out(true, g1)
         else RunProg(w, e.body, g1, fuel))
    case For(name, words, p) =>
      if words == [] then Out(true, g.(status := 0))
      else if name in w.readonly then Out(false, g)
      else LeaveLoop(RunFor(w, name, words, p, g.(level := g.level + 1), fuel))
    case While(_, _, _) =>
      LeaveLoop(RunWhile(w, c, g.(level := g.level + 1), false, fuel))
  }

  function LeaveLoop(r: Run): Run {
    match r
    case NoFuel => NoFuel
    case Out(ok, g) => Out(ok, g.(level := g.level - 1))
  }

  /** What a loop does after a pass through its body: stop with this result, or go on. */
  datatype AfterPass = Stop(g: Globals) | GoOn(g: Globals)

  function AfterBody(g: Globals): AfterPass {
    if g.brk != 0 then Stop(g.(brk := g.brk - 1))
    else if g.cont != 0 then
      var g1 := g.(cont := g.cont - 1);
      if g1.cont != 0 then Stop(g1) else GoOn(g1)
    else GoOn(g)
  }

  // The loop of do_for_loop over the words that are left.
  function RunFor(w: World, name: string, words: seq<string>, p: Prog, g: Globals, fuel: nat): Run
    decreases fuel, p, 3, |words|
  {
    if words == [] then Out(true, g)
    else match RunProg(w, p, g.(trace := g.trace + [Bound(name, words[0])]), fuel)
      case NoFuel => NoFuel
      case Out(ok, g1) =>
        if !ok then Out(false, g1)
        else match AfterBody(g1)
          case Stop(g2) => Out(true, g2)
          case GoOn(g2) => RunFor(w, name, words[1..], p, g2, fuel)
  }

  /** The loop of do_while_loop and do_until_loop. Its result is set only at the end of a pass,
      so that leaving in the first pass returns res as it was, 0. */
  function RunWhile(w: World, c: Cmd, g: Globals, res: bool, fuel: nat): Run
    requires c.While?
    decreases fuel, c, 1, 0
  {
    match RunProg(w, c.test, g, fuel)
    case NoFuel => NoFuel
    case Out(ok, g1) =>
      if !ok then Out(false, g1)
      else if (g1.status == 0) == c.until then Out(true, g1)
      else match RunProg(w, c.body, g1, fuel)
        case NoFuel => NoFuel
        case Out(ok2, g2) =>
          if !ok2 then Out(false, g2)
          else match AfterBody(g2)
            case Stop(g3) => Out(res, g3)
            case GoOn(g3) => if fuel == 0 then NoFuel else RunWhile(w, c, g3, true, fuel - 1)
  }

  /* ----- the loop level is balanced on every run, whatever is pending or fails ----- */

  predicate Balanced(r: Run, level: int) { r.Out? ==> r.g.level == level }

  lemma {:induction false} ProgBalanced(w: World, p: Prog, g: Globals, fuel: nat)
    ensures Balanced(RunProg(w, p, g, fuel), g.level)
    decreases fuel, p, 2, 0
  {
    match p
    case Last(a) => AndOrBalanced(w, a, g, fuel);
    case Next(a, rest) =>
      AndOrBalanced(w, a, g, fuel);
      var r := RunAndOr(w, a, g, fuel);
      if r.Out? { ProgBalanced(w, rest, r.g, fuel); }
  }

  lemma {:induction false} AndOrBalanced(w: World, a: AndOr, g: Globals, fuel: nat)
    ensures Balanced(RunAndOr(w, a, g, fuel), g.level)
    decreases fuel, a, 2, 0
  {
    CmdBalanced(w, a.cmd, g, fuel);
    var r := RunCmd(w, a.cmd, g, fuel);
    if r.Out? { ClausesBalanced(w, a.clauses, r.g, fuel); }
  }

  lemma {:induction false} ClausesBalanced(w: World, cs: Clauses, g: Globals, fuel: nat)
    ensures Balanced(RunClauses(w, cs, g, fuel), g.level)
    decreases fuel, cs, 2, 0
  {
    match cs
    case End =>
    case Clause(_, c, rest) =>
      ClausesBalanced(w, rest, g, fuel);
      CmdBalanced(w, c, g, fuel);
      var r := RunCmd(w, c, g, fuel);
      if r.Out? { ClausesBalanced(w, rest, r.g, fuel); }
  }

  /** Every command, for, while and until loops among them, leaves the loop level as it was. */
  lemma {:induction false} CmdBalanced(w: World, c: Cmd, g: Globals, fuel: nat)
    ensures Balanced(RunCmd(w, c, g, fuel), g.level)
    decreases fuel, c, 2, 0
  {
    match c
    case Simple(_) =>
    case Break(_) =>
    case Continue(_) =>
    case Group(p) => ProgBalanced(w, p, g, fuel);
    case If(t, p, e) =>
      ProgBalanced(w, t, g, fuel);
      var r := RunProg(w, t, g, fuel);
      if r.Out? {
        ProgBalanced(w, p, r.g, fuel);
        if e.Else? { ProgBalanced(w, e.body, r.g, fuel); }
      }
    case For(name, words, p) => ForBalanced(w, name, words, p, g.(level := g.level + 1), fuel);
    case While(_, _, _) => WhileBalanced(w, c, g.(level := g.level + 1), false, fuel);
  }

  lemma {:induction false} ForBalanced(w: World, name: string, words: seq<string>, p: Prog, g: Globals, fuel: nat)
    ensures Balanced(RunFor(w, name, words, p, g, fuel), g.level)
    decreases fuel, p, 3, |words|
  {
    if words != [] {
      var g0 := g.(trace := g.trace + [Bound(name, words[0])]);
      ProgBalanced(w, p, g0, fuel);
      var r := RunProg(w, p, g0, fuel);
      if r.Out? && AfterBody(r.g).GoOn? { ForBalanced(w, name, words[1..], p, AfterBody(r.g).g, fuel); }
    }
  }

  lemma {:induction false} WhileBalanced(w: World, c: Cmd, g: Globals, res: bool, fuel: nat)
    requires c.While?
    ensures Balanced(RunWhile(w, c, g, res, fuel), g.level)
    decreases fuel, c, 1, 0
  {
    hide RunProg;
    ProgBalanced(w, c.test, g, fuel);
    var t := RunProg(w, c.test, g, fuel);
    if t.Out? {
      ProgBalanced(w, c.body, t.g, fuel);
      var r := RunProg(w, c.body, t.g, fuel);
      if r.Out? && AfterBody(r.g).GoOn? && fuel > 0 { WhileBalanced(w, c, AfterBody(r.g).g, true, fuel - 1); }
    }
  }
}
