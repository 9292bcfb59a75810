/** The executors as they run: the globals are fields that the methods update, and every method
    is proved against its function of the globals. */
module LoopShell {
  import opened Commands
  import F = LoopFlags

  // An executor's return value; NoFuel means the passes allowed to loops ran out.
  datatype Res = Ok(ok: bool) | NoFuel

  class Shell {
    const w: World
    var curLoopLevel: int
    var reqBreak: int
    var reqContinue: int
    var exitStatus: int
    var trace: seq<Event>

    constructor (w: World)
      ensures this.w == w && Globals() == F.Globals(0, 0, 0, 0, [])
    {
      this.w := w;
      curLoopLevel, reqBreak, reqContinue, exitStatus, trace := 0, 0, 0, 0, [];
    }

    function Globals(): F.Globals
      reads this
    {
      F.Globals(curLoopLevel, reqBreak, reqContinue, exitStatus, trace)
    }

    /** The method returned what the function gives and left the globals as it says. */
    ghost predicate Did(res: Res, r: F.Run)
      reads this
    {
      match r
      case NoFuel => res == NoFuel
      case Out(ok, g) => res == Ok(ok) && Globals() == g
    }

    predicate Leaving()
      reads this
    {
      curLoopLevel != 0 && (reqBreak != 0 || reqContinue != 0)
    }

    method BreakBuiltin(n: int)
      modifies this
      ensures Did(Ok(true), F.RunCmd(w, Break(n), old(Globals()), 0))
    {
      if curLoopLevel == 0 || n < 1 {
        exitStatus := 1;
        return;
      }
      reqBreak := n;
      exitStatus := 0;
    }

    method ContinueBuiltin(n: int)
      modifies this
      ensures Did(Ok(true), F.RunCmd(w, Continue(n), old(Globals()), 0))
    {
      if curLoopLevel == 0 || n < 1 {
        exitStatus := 1;
        return;
      }
      reqContinue := n;
      exitStatus := 0;
    }

    method DoCompoundList(p: Prog, fuel: nat) returns (res: Res)
      modifies this
      ensures Did(res, F.RunProg(w, p, old(Globals()), fuel))
      decreases fuel, p, 2, 0
    {
      match p
      case Last(a) => res := DoAndOr(a, fuel);
      case Next(a, rest) =>
        res := DoAndOr(a, fuel);
        if res.NoFuel? || !res.ok || Leaving() { return; }
        res := DoCompoundList(rest, fuel);
    }

    method DoAndOr(a: AndOr, fuel: nat) returns (res: Res)
      modifies this
      ensures Did(res, F.RunAndOr(w, a, old(Globals()), fuel))
      decreases fuel, a, 2, 0
    {
      res := DoCommand(a.cmd, fuel);
      if res.NoFuel? || !res.ok || Leaving() { return; }
      res := DoClauses(a.clauses, fuel);
    }

    // The loop of do_and_or over the clauses: those whose operator does not fit are passed over.
    method DoClauses(clauses: Clauses, fuel: nat) returns (res: Res)
      modifies this
      ensures Did(res, F.RunClauses(w, clauses, old(Globals()), fuel))
      decreases fuel, clauses, 2, 0
    {
      match clauses
      case End => res := Ok(true);
      case Clause(onSuccess, c, rest) =>
        if (exitStatus == 0) != onSuccess {
          res := DoClauses(rest, fuel);
        } else {
          res := DoCommand(c, fuel);
          if res.NoFuel? || !res.ok || Leaving() { return; }
          res := DoClauses(rest, fuel);
        }
    }

    method DoCommand(c: Cmd, fuel: nat) returns (res: Res)
      modifies this
      ensures Did(res, F.RunCmd(w, c, old(Globals()), fuel))
      decreases fuel, c, 2, 0
    {
      match c
      case Simple(name) =>
        var st := w.status(name, trace);
        trace := trace + [Ran(name)];
        if st.None? { return Ok(false); }
        exitStatus := st.value;
        res := Ok(true);
      case Break(n) =>
        BreakBuiltin(n);
        res := Ok(true);
      case Continue(n) =>
        ContinueBuiltin(n);
        res := Ok(true);
      case Group(p) => res := DoCompoundList(p, fuel);
      case If(t, p, e) => res := DoIfClause(c, fuel);
      case For(name, words, p) => res := DoForLoop(name, words, p, fuel);
      case While(_, _, _) => res := DoWhileLoop(c, fuel);
    }

    method DoIfClause(c: Cmd, fuel: nat) returns (res: Res)
      requires c.If?
      modifies this
      ensures Did(res, F.RunCmd(w, c, old(Globals()), fuel))
      decreases fuel, c, 1, 0
    {
      res := DoCompoundList(c.test, fuel);
      if res.NoFuel? || !res.ok { return; }
      if exitStatus == 0 {
        res := DoCompoundList(c.body, fuel);
      } else if c.other.NoElse? {
        res := Ok(true);
      } else {
        res := DoCompoundList(c.other.body, fuel);
      }
    }

    // What every loop does with the flags after a pass; true means leave the loop.
    method AfterPass() returns (leave: bool)
      modifies `reqBreak, `reqContinue
      ensures F.AfterBody(old(Globals())) == if leave then F.Stop(Globals()) else F.GoOn(Globals())
    {
      if reqBreak != 0 {
        reqBreak := reqBreak - 1;
        return true;
      }
      if reqContinue != 0 {
        reqContinue := reqContinue - 1;
        if reqContinue != 0 { return true; }
      }
      leave := false;
    }

    method DoForLoop(name: string, words: seq<string>, body: Prog, fuel: nat) returns (res: Res)
      modifies this
      ensures Did(res, F.RunCmd(w, For(name, words, body), old(Globals()), fuel))
      decreases fuel, body, 3, 0
    {
      if words == [] {
        exitStatus := 0;
        return Ok(true);
      }
      if name in w.readonly { return Ok(false); }
      curLoopLevel := curLoopLevel + 1;
      ghost var g := Globals();
      res := Ok(false);
      var l := 0;
      while l < |words|
        invariant 0 <= l <= |words|
        invariant l == |words| ==> res == Ok(true)
        invariant F.RunFor(w, name, words[l..], body, Globals(), fuel) == F.RunFor(w, name, words, body, g, fuel)
      {
        ghost var left := words[l..];
        trace := trace + [Bound(name, words[l])];
        assert left[0] == words[l] && left[1..] == words[l + 1..];
        res := DoCompoundList(body, fuel);
        if res.NoFuel? { return; }
        if !res.ok { break; }
        var leave := AfterPass();
        if leave { break; }
        l := l + 1;
      }
      curLoopLevel := curLoopLevel - 1;
    }
  
    // do_while_loop, and do_until_loop with the test the other way round.
    method DoWhileLoop(c: Cmd, fuel: nat) returns (res: Res)
      requires c.While?
      modifies this
      ensures Did(res, F.RunCmd(w, c, old(Globals()), fuel))
      decreases fuel, c, 1, 0
    {
      curLoopLevel := curLoopLevel + 1;
      ghost var g := Globals();
      res := Ok(false);
      var left: nat := fuel;
      while true
        invariant res.Ok? && left <= fuel
        invariant F.RunWhile(w, c, Globals(), res.ok, left) == F.RunWhile(w, c, g, false, fuel)
        decreases left
      {
        var t := DoCompoundList(c.test, left);
        if t.NoFuel? { return NoFuel; }
        if !t.ok { res := Ok(false); break; }
        if (exitStatus == 0) == c.until { res := Ok(true); break; }
        var b := DoCompoundList(c.body, left);
        if b.NoFuel? { return NoFuel; }
        if !b.ok { res := Ok(false); break; }
        var leave := AfterPass();
        if leave { break; }
        res := Ok(true);
        if left == 0 { return NoFuel; }
        left := left - 1;
      }
      curLoopLevel := curLoopLevel - 1;
    }
  }
}
