/** `break` and `continue` as section 2.14 of the Shell Command Language describes them: a
    command completes with a signal that the loops around it consume. The executors, which
    speak through three globals, refine it. With strict the exit status of loops and conditionals
    is the one that section 2.9.4 asks for, otherwise it is the shell's. */
module LoopFlow {
  import opened Commands
  import opened LoopFlags

  datatype Signal = Done | Breaking(n: nat) | Continuing(n: nat) | Broken

  /** The exit status: what XCU section 2.9.4 asks for, and what the shell has instead. It keeps
      the status of a test that was the last thing to run. */
  datatype Both = Both(xcu: int, shell: int)

  function Same(status: int): Both { Both(status, status) }

  // What a test leaves that was the last thing to run; strict is to ask for what is asked for.
  function Left(strict: bool, asked: int, test: Both): Both { if strict then Both(asked, test.shell) else test }

  // A command run next, or not, by the one and not by the other.
  predicate Parts(b: Both) { (b.xcu == 0) != (b.shell == 0) }

  /** early: some while or until loop was left by break or by continue 2 in its first pass.
      parted: some `&&`, `||` or test was decided by a status that the shell has otherwise. */
  datatype Flow = Flow(sig: Signal, status: Both, trace: seq<Event>, early: bool, parted: bool) | Endless

  function After(f: Flow, g: Flow): Flow
    requires f.Flow?
  {
    if g.Endless? then Endless else g.(early := f.early || g.early, parted := f.parted || g.parted)
  }

  // What comes of a decision by this status.
  function Decided(b: Both, f: Flow): Flow {
    if f.Endless? then Endless else f.(parted := f.parted || Parts(b))
  }

  function FlowProg(w: World, strict: bool, p: Prog, level: nat, status: Both, trace: seq<Event>, fuel: nat): Flow
    decreases fuel, p, 2, 0
  {
    match p
    case Last(a) => FlowAndOr(w, strict, a, level, status, trace, fuel)
    case Next(a, rest) =>
      var f := FlowAndOr(w, strict, a, level, status, trace, fuel);
      if f.Endless? || f.sig != Done then f
      else After(f, FlowProg(w, strict, rest, level, f.status, f.trace, fuel))
  }

  function FlowAndOr(w: World, strict: bool, a: AndOr, level: nat, status: Both, trace: seq<Event>, fuel: nat): Flow
    decreases fuel, a, 2, 0
  {
    var f := FlowCmd(w, strict, a.cmd, level, status, trace, fuel);
    if f.Endless? || f.sig != Done then f
    else After(f, FlowClauses(w, strict, a.clauses, level, f.status, f.trace, fuel))
  }

  function FlowClauses(w: World, strict: bool, cs: Clauses, level: nat, status: Both, trace: seq<Event>,
                       fuel: nat): Flow
    decreases fuel, cs, 2, 0
  {
    match cs
    case End => Flow(Done, status, trace, false, false)
    case Clause(onSuccess, c, rest) =>
      if (status.xcu == 0) != onSuccess then Decided(status, FlowClauses(w, strict, rest, level, status, trace, fuel))
      else
        var f := Decided(status, FlowCmd(w, strict, c, level, status, trace, fuel));
        if f.Endless? || f.sig != Done then f
        else After(f, FlowClauses(w, strict, rest, level, f.status, f.trace, fuel))
  }

  function FlowCmd(w: World, strict: bool, c: Cmd, level: nat, status: Both, trace: seq<Event>, fuel: nat): Flow
    decreases fuel, c, 2, 0
  {
    match c
    case Simple(name) =>
      (match w.status(name, trace)
       case None => Flow(Broken, status, trace + [Ran(name)], false, false)
       case Some(st) => Flow(Done, Same(st), trace + [Ran(name)], false, false))
    case Break(n) =>
      if level == 0 || n < 1 then Flow(Done, Same(1), trace, false, false)
      else Flow(Breaking(n), Same(0), trace, false, false)
    case Continue(n) =>
      if level == 0 || n < 1 then Flow(Done, Same(1), trace, false, false)
      else Flow(Continuing(n), Same(0), trace, false, false)
    case Group(p) => FlowProg(w, strict, p, level, status, trace, fuel)
    case If(t, p, e) =>
      (var f := FlowProg(w, strict, t, level, status, trace, fuel);
       if f.Endless? || f.sig != Done then f
       else if f.status.xcu == 0 then
         After(f, Decided(f.status, FlowProg(w, strict, p, level, f.status, f.trace, fuel)))
       else if e.NoElse? then Decided(f.status, f.(status := Left(strict, 0, f.status)))
       else After(f, Decided(f.status, FlowProg(w, strict, e.body, level, f.status, f.trace, fuel))))
    case For(name, words, p) =>
      if words == [] then Flow(Done, Same(0), trace, false, false)
      else if name in w.readonly then Flow(Broken, status, trace, false, false)
      else FlowFor(w, strict, name, words, p, level + 1, status, trace, fuel)
    case While(_, _, _) => FlowWhile(w, strict, c, level + 1, status, 0, trace, true, fuel)
  }

  /** A loop lets one level of break through as its own end, and takes `continue 1` as an
      ordinary end of the pass; what is left goes to the next loop out. */
  function Through(sig: Signal): (bool, Signal) {
    match sig
    case Done => (true, Done)
    case Broken => (false, Broken)
    case Breaking(n) => (false, if n <= 1 then Done else Breaking(n - 1))
    case Continuing(n) => if n <= 1 then (true, Done) else (false, Continuing(n - 1))
  }

  function FlowFor(w: World, strict: bool, name: string, words: seq<string>, p: Prog, level: nat, status: Both,
                   trace: seq<Event>, fuel: nat): Flow
    decreases fuel, p, 3, |words|
  {
    if words == [] then Flow(Done, status, trace, false, false)
    else
      var f := FlowProg(w, strict, p, level, status, trace + [Bound(name, words[0])], fuel);
      if f.Endless? then f
      else
        var (goOn, sig) := Through(f.sig);
        if goOn then After(f, FlowFor(w, strict, name, words[1..], p, level, f.status, f.trace, fuel))
        else f.(sig := sig)
  }

  // last is the status of the last pass, 0 when there was none.
  function FlowWhile(w: World, strict: bool, c: Cmd, level: nat, status: Both, last: int, trace: seq<Event>,
                     first: bool, fuel: nat): Flow
    requires c.While?
    decreases fuel, c, 1, 0
  {
    var t := FlowProg(w, strict, c.test, level, status, trace, fuel);
    if t.Endless? || t.sig != Done then t
    else if (t.status.xcu == 0) == c.until then Decided(t.status, t.(status := Left(strict, last, t.status)))
    else After(t, Decided(t.status, FlowPass(w, strict, c, level, t.status, t.trace, first, fuel)))
  }

  // A pass of the loop and what follows it.
  function FlowPass(w: World, strict: bool, c: Cmd, level: nat, status: Both, trace: seq<Event>, first: bool,
                    fuel: nat): Flow
    requires c.While?
    decreases fuel, c, 0, 0
  {
    var f := FlowProg(w, strict, c.body, level, status, trace, fuel);
    if f.Endless? then f
    else
      var (goOn, sig) := Through(f.sig);
      if !goOn then f.(sig := sig, early := f.early || (first && sig != Broken))
      else if fuel == 0 then Endless
      else After(f, FlowWhile(w, strict, c, level, f.status, f.status.xcu, f.trace, false, fuel - 1))
  }

  /* ----- refinement ----- */

  // No break or continue is pending.
  function Clean(level: nat, status: int, trace: seq<Event>): Globals { Globals(level, 0, 0, status, trace) }

  function Encoded(f: Flow, level: nat): Run
    requires f.Flow?
  {
    Out(f.sig != Broken,
        Globals(level, if f.sig.Breaking? then f.sig.n else 0, if f.sig.Continuing? then f.sig.n else 0,
                f.status.shell, f.trace))
  }

  /** An executor does what the signals say, as long as no decision parts them, unless a while or
      until loop was left early: then it reports failure. */
  predicate Refines(f: Flow, r: Run, level: nat) {
    f.Flow? && !f.parted ==> r.Out? && if f.early then !r.ok else r == Encoded(f, level)
  }

  // Without what section 2.9.4 asks for there is one status.
  predicate Level(status: Both, strict: bool) { strict || status.xcu == status.shell }

  predicate Levelled(f: Flow, strict: bool) { f.Flow? && !strict ==> !f.parted && Level(f.status, strict) }

  // What can get out of depth loops.
  predicate Within(f: Flow, depth: nat) {
    f.Flow? && (f.sig.Breaking? || f.sig.Continuing?) ==> 1 <= f.sig.n <= depth
  }

  lemma {:induction false} RefineProg(w: World, strict: bool, p: Prog, depth: nat, level: nat, status: Both,
                                      trace: seq<Event>, fuel: nat)
    requires Level(status, strict) && Bounded(p, depth, level) && depth <= level
    ensures var f := FlowProg(w, strict, p, level, status, trace, fuel);
            Refines(f, RunProg(w, p, Clean(level, status.shell, trace), fuel), level) && Within(f, depth)
              && Levelled(f, strict)
    decreases fuel, p, 2, 0
  {
    match p
    case Last(a) => RefineAndOr(w, strict, a, depth, level, status, trace, fuel);
    case Next(a, rest) =>
      RefineAndOr(w, strict, a, depth, level, status, trace, fuel);
      var f := FlowAndOr(w, strict, a, level, status, trace, fuel);
      if f.Flow? && f.sig == Done { RefineProg(w, strict, rest, depth, level, f.status, f.trace, fuel); }
  }

  lemma {:induction false} RefineAndOr(w: World, strict: bool, a: AndOr, depth: nat, level: nat, status: Both,
                                       trace: seq<Event>, fuel: nat)
    requires Level(status, strict) && BoundedAndOr(a, depth, level) && depth <= level
    ensures var f := FlowAndOr(w, strict, a, level, status, trace, fuel);
            Refines(f, RunAndOr(w, a, Clean(level, status.shell, trace), fuel), level) && Within(f, depth)
              && Levelled(f, strict)
    decreases fuel, a, 2, 0
  {
    RefineCmd(w, strict, a.cmd, depth, level, status, trace, fuel);
    var f := FlowCmd(w, strict, a.cmd, level, status, trace, fuel);
    if f.Flow? && f.sig == Done { RefineClauses(w, strict, a.clauses, depth, level, f.status, f.trace, fuel); }
  }

  lemma {:induction false} RefineClauses(w: World, strict: bool, cs: Clauses, depth: nat, level: nat, status: Both,
                                         trace: seq<Event>, fuel: nat)
    requires Level(status, strict) && BoundedClauses(cs, depth, level) && depth <= level
    ensures var f := FlowClauses(w, strict, cs, level, status, trace, fuel);
            Refines(f, RunClauses(w, cs, Clean(level, status.shell, trace), fuel), level) && Within(f, depth)
              && Levelled(f, strict)
    decreases fuel, cs, 2, 0
  {
    hide FlowCmd, RunCmd, BoundedCmd;
    match cs
    case End =>
    case Clause(onSuccess, c, rest) =>
      if (status.xcu == 0) != onSuccess {
        RefineClauses(w, strict, rest, depth, level, status, trace, fuel);
      } else {
        RefineCmd(w, strict, c, depth, level, status, trace, fuel);
        var f := FlowCmd(w, strict, c, level, status, trace, fuel);
        if f.Flow? && f.sig == Done { RefineClauses(w, strict, rest, depth, level, f.status, f.trace, fuel); }
      }
  }

  lemma {:induction false} RefineCmd(w: World, strict: bool, c: Cmd, depth: nat, level: nat, status: Both,
                                     trace: seq<Event>, fuel: nat)
    requires Level(status, strict) && BoundedCmd(c, depth, level) && depth <= level
    ensures var f := FlowCmd(w, strict, c, level, status, trace, fuel);
            Refines(f, RunCmd(w, c, Clean(level, status.shell, trace), fuel), level) && Within(f, depth)
              && Levelled(f, strict)
    decreases fuel, c, 2, 0
  {
    match c
    case Simple(_) =>
    case Break(_) =>
    case Continue(_) =>
    case Group(p) => RefineProg(w, strict, p, depth, level, status, trace, fuel);
    case If(_, _, _) => RefineIf(w, strict, c, depth, level, status, trace, fuel);
    case For(name, words, p) =>
      if words != [] && name !in w.readonly {
        RefineFor(w, strict, name, words, p, depth + 1, level + 1, status, trace, fuel);
      }
    case While(_, _, _) => RefineWhile(w, strict, c, depth + 1, level + 1, status, 0, trace, true, fuel);
  }

  lemma {:induction false} RefineIf(w: World, strict: bool, c: Cmd, depth: nat, level: nat, status: Both,
                                    trace: seq<Event>, fuel: nat)
    requires c.If? && Level(status, strict) && BoundedCmd(c, depth, level) && depth <= level
    ensures var f := FlowCmd(w, strict, c, level, status, trace, fuel);
            Refines(f, RunCmd(w, c, Clean(level, status.shell, trace), fuel), level) && Within(f, depth)
              && Levelled(f, strict)
    decreases fuel, c, 1, 0
  {
    hide FlowProg, RunProg, Bounded;
    RefineProg(w, strict, c.test, 0, level, status, trace, fuel);
    var f := FlowProg(w, strict, c.test, level, status, trace, fuel);
    if f.Flow? && f.sig == Done {
      if f.status.xcu == 0 {
        RefineProg(w, strict, c.body, depth, level, f.status, f.trace, fuel);
      } else if c.other.Else? {
        RefineProg(w, strict, c.other.body, depth, level, f.status, f.trace, fuel);
      }
    }
  }

  lemma {:induction false} RefineFor(w: World, strict: bool, name: string, words: seq<string>, p: Prog, depth: nat,
                                     level: nat, status: Both, trace: seq<Event>, fuel: nat)
    requires Level(status, strict) && Bounded(p, depth, level) && 1 <= depth <= level
    ensures var f := FlowFor(w, strict, name, words, p, level, status, trace, fuel);
            Refines(f, RunFor(w, name, words, p, Clean(level, status.shell, trace), fuel), level)
              && Within(f, depth - 1)
            && Levelled(f, strict)
    decreases fuel, p, 3, |words|
  {
    hide FlowProg, RunProg, Bounded, AfterBody;
    if words != [] {
      var trace1 := trace + [Bound(name, words[0])];
      RefineProg(w, strict, p, depth, level, status, trace1, fuel);
      var f := FlowProg(w, strict, p, level, status, trace1, fuel);
      if f.Flow? && f.sig != Broken { PassedThrough(f, level); }
      if f.Flow? && Through(f.sig).0 {
        RefineFor(w, strict, name, words[1..], p, depth, level, f.status, f.trace, fuel);
      }
    }
  }

  // What a loop makes of the flags of a pass is what it makes of its signal.
  lemma PassedThrough(f: Flow, level: nat)
    requires f.Flow? && f.sig != Broken && (f.sig.Breaking? || f.sig.Continuing? ==> f.sig.n >= 1)
    ensures var (goOn, sig) := Through(f.sig);
            && sig != Broken && (goOn ==> sig == Done)
            && AfterBody(Encoded(f, level).g) ==
               if goOn then GoOn(Clean(level, f.status.shell, f.trace)) else Stop(Encoded(f.(sig := sig), level).g)
  {}

  lemma {:induction false} RefineWhile(w: World, strict: bool, c: Cmd, depth: nat, level: nat, status: Both, last: int,
                                       trace: seq<Event>, first: bool, fuel: nat)
    requires c.While? && Level(status, strict) && Bounded(c.test, 0, level) && Bounded(c.body, depth, level)
             && 1 <= depth <= level
    ensures var f := FlowWhile(w, strict, c, level, status, last, trace, first, fuel);
            Refines(f, RunWhile(w, c, Clean(level, status.shell, trace), !first, fuel), level) && Within(f, depth - 1)
            && Levelled(f, strict)
    decreases fuel, c, 1, 0
  {
    hide FlowProg, RunProg, Bounded, RunPass, FlowPass;
    RefineProg(w, strict, c.test, 0, level, status, trace, fuel);
    var t := FlowProg(w, strict, c.test, level, status, trace, fuel);
    RunWhileIs(w, c, Clean(level, status.shell, trace), !first, fuel);
    hide RunWhile;
    if t.Flow? && t.sig == Done && (t.status.xcu == 0) != c.until {
      RefinePass(w, strict, c, depth, level, t.status, t.trace, first, fuel);
    }
  }

  // What RunWhile does once the test has let a pass begin.
  function RunPass(w: World, c: Cmd, g: Globals, res: bool, fuel: nat): Run
    requires c.While?
  {
    match RunProg(w, c.body, g, fuel)
    case NoFuel => NoFuel
    case Out(ok, g1) =>
      if !ok then Out(false, g1)
      else match AfterBody(g1)
        case Stop(g2) => Out(res, g2)
        case GoOn(g2) => if fuel == 0 then NoFuel else RunWhile(w, c, g2, true, fuel - 1)
  }

  function AfterTest(r: Run, w: World, c: Cmd, res: bool, fuel: nat): Run
    requires c.While?
  {
    match r
    case NoFuel => NoFuel
    case Out(ok, g) =>
      if !ok then Out(false, g)
      else if (g.status == 0) == c.until then Out(true, g)
      else RunPass(w, c, g, res, fuel)
  }

  lemma RunWhileIs(w: World, c: Cmd, g: Globals, res: bool, fuel: nat)
    requires c.While?
    ensures RunWhile(w, c, g, res, fuel) == AfterTest(RunProg(w, c.test, g, fuel), w, c, res, fuel)
  {
    hide RunProg;
  }

  lemma {:induction false} RefinePass(w: World, strict: bool, c: Cmd, depth: nat, level: nat, status: Both,
                                      trace: seq<Event>, first: bool, fuel: nat)
    requires c.While? && Level(status, strict) && Bounded(c.test, 0, level) && Bounded(c.body, depth, level)
             && 1 <= depth <= level
    ensures var f := FlowPass(w, strict, c, level, status, trace, first, fuel);
            Refines(f, RunPass(w, c, Clean(level, status.shell, trace), !first, fuel), level) && Within(f, depth - 1)
            && Levelled(f, strict)
    decreases fuel, c, 0, 0
  {
    hide FlowProg, RunProg, Bounded, AfterBody, RunWhile, FlowWhile;
    RefineProg(w, strict, c.body, depth, level, status, trace, fuel);
    var f := FlowProg(w, strict, c.body, level, status, trace, fuel);
    if f.Flow? && f.sig != Broken { PassedThrough(f, level); }
    if f.Flow? && Through(f.sig).0 && fuel > 0 {
      RefineWhile(w, strict, c, depth, level, f.status, f.status.xcu, f.trace, false, fuel - 1);
    }
  }

  /** A whole program, started at loop level 0 with nothing pending. When the signals say that it
      runs to its end, the flag machine does so, with the same commands, the same status, and
      both flags and the level 0 again, if and only if no while or until loop was left early;
      when one was, the machine reports a failure; and without one it fails where the signals do.
      With strict the signals take the statuses that section 2.9.4 asks for. Then this holds as
      long as no `&&`, `||` or test is decided by a status that an `if` without `else`, a while
      or an until loop has left of its test, and the status at the end is the same if and only if
      it is none of those either. */
  lemma ProgramRefines(w: World, strict: bool, p: Prog, status: int, trace: seq<Event>, fuel: nat)
    requires Bounded(p, 0, 0)
    requires FlowProg(w, strict, p, 0, Same(status), trace, fuel).Flow?
    ensures var f := FlowProg(w, strict, p, 0, Same(status), trace, fuel);
            var r := RunProg(w, p, Clean(0, status, trace), fuel);
            && (!strict ==> !f.parted && f.status.xcu == f.status.shell)
            && (!f.parted ==>
                  && (f.sig == Done || f.sig == Broken)
                  && (f.sig == Done ==> (r == Out(true, Clean(0, f.status.xcu, f.trace))
                                         <==> !f.early && f.status.xcu == f.status.shell))
                  && (f.early ==> r.Out? && !r.ok)
                  && (!f.early ==> r == Out(f.sig == Done, Clean(0, f.status.shell, f.trace))))
  {
    RefineProg(w, strict, p, 0, 0, Same(status), trace, fuel);
  }

  /* ----- programs with word-list loops only ----- */

  // lone tells whether an `if` may be without `else`.
  predicate WordLoops(p: Prog, lone: bool) {
    match p
    case Last(a) => WordLoopsAndOr(a, lone)
    case Next(a, rest) => WordLoopsAndOr(a, lone) && WordLoops(rest, lone)
  }

  predicate WordLoopsAndOr(a: AndOr, lone: bool) { WordLoopsCmd(a.cmd, lone) && WordLoopsClauses(a.clauses, lone) }

  predicate WordLoopsClauses(cs: Clauses, lone: bool) {
    match cs
    case End => true
    case Clause(_, c, rest) => WordLoopsCmd(c, lone) && WordLoopsClauses(rest, lone)
  }

  predicate WordLoopsCmd(c: Cmd, lone: bool) {
    match c
    case Simple(_) => true
    case Break(_) => true
    case Continue(_) => true
    case Group(p) => WordLoops(p, lone)
    case If(t, p, e) => WordLoops(t, lone) && WordLoops(p, lone) && (if e.Else? then WordLoops(e.body, lone) else lone)
    case For(_, _, p) => WordLoops(p, lone)
    case While(_, _, _) => false
  }

  predicate Ends(f: Flow, lone: bool) {
    f.Flow? && !f.early && (!lone ==> !f.parted && f.status.xcu == f.status.shell)
  }

  predicate Begins(status: Both, lone: bool) { lone || status.xcu == status.shell }

  lemma {:induction false} WordLoopsEnd(w: World, strict: bool, p: Prog, level: nat, status: Both, lone: bool,
                                        trace: seq<Event>, fuel: nat)
    requires WordLoops(p, lone) && Begins(status, lone)
    ensures Ends(FlowProg(w, strict, p, level, status, trace, fuel), lone)
    decreases p, 2, 0
  {
    match p
    case Last(a) => AndOrEnds(w, strict, a, level, status, lone, trace, fuel);
    case Next(a, rest) =>
      AndOrEnds(w, strict, a, level, status, lone, trace, fuel);
      var f := FlowAndOr(w, strict, a, level, status, trace, fuel);
      WordLoopsEnd(w, strict, rest, level, f.status, lone, f.trace, fuel);
  }

  lemma {:induction false} AndOrEnds(w: World, strict: bool, a: AndOr, level: nat, status: Both, lone: bool,
                                     trace: seq<Event>, fuel: nat)
    requires WordLoopsAndOr(a, lone) && Begins(status, lone)
    ensures Ends(FlowAndOr(w, strict, a, level, status, trace, fuel), lone)
    decreases a, 2, 0
  {
    CmdEnds(w, strict, a.cmd, level, status, lone, trace, fuel);
    var f := FlowCmd(w, strict, a.cmd, level, status, trace, fuel);
    ClausesEnd(w, strict, a.clauses, level, f.status, lone, f.trace, fuel);
  }

  lemma {:induction false} ClausesEnd(w: World, strict: bool, cs: Clauses, level: nat, status: Both, lone: bool,
                                      trace: seq<Event>, fuel: nat)
    requires WordLoopsClauses(cs, lone) && Begins(status, lone)
    ensures Ends(FlowClauses(w, strict, cs, level, status, trace, fuel), lone)
    decreases cs, 2, 0
  {
    match cs
    case End =>
    case Clause(_, c, rest) =>
      CmdEnds(w, strict, c, level, status, lone, trace, fuel);
      var f := FlowCmd(w, strict, c, level, status, trace, fuel);
      ClausesEnd(w, strict, rest, level, status, lone, trace, fuel);
      ClausesEnd(w, strict, rest, level, f.status, lone, f.trace, fuel);
  }

  lemma {:induction false} CmdEnds(w: World, strict: bool, c: Cmd, level: nat, status: Both, lone: bool,
                                   trace: seq<Event>, fuel: nat)
    requires WordLoopsCmd(c, lone) && Begins(status, lone)
    ensures Ends(FlowCmd(w, strict, c, level, status, trace, fuel), lone)
    decreases c, 2, 0
  {
    match c
    case Simple(_) =>
    case Break(_) =>
    case Continue(_) =>
    case Group(p) => WordLoopsEnd(w, strict, p, level, status, lone, trace, fuel);
    case If(t, p, e) =>
      WordLoopsEnd(w, strict, t, level, status, lone, trace, fuel);
      var f := FlowProg(w, strict, t, level, status, trace, fuel);
      WordLoopsEnd(w, strict, p, level, f.status, lone, f.trace, fuel);
      if e.Else? { WordLoopsEnd(w, strict, e.body, level, f.status, lone, f.trace, fuel); }
    case For(name, words, p) => ForEnds(w, strict, name, words, p, level + 1, status, lone, trace, fuel);
  }

  lemma {:induction false} ForEnds(w: World, strict: bool, name: string, words: seq<string>, p: Prog, level: nat,
                                   status: Both, lone: bool, trace: seq<Event>, fuel: nat)
    requires WordLoops(p, lone) && Begins(status, lone)
    ensures Ends(FlowFor(w, strict, name, words, p, level, status, trace, fuel), lone)
    decreases p, 3, |words|
  {
    if words != [] {
      var trace1 := trace + [Bound(name, words[0])];
      WordLoopsEnd(w, strict, p, level, status, lone, trace1, fuel);
      var f := FlowProg(w, strict, p, level, status, trace1, fuel);
      ForEnds(w, strict, name, words[1..], p, level, f.status, lone, f.trace, fuel);
    }
  }

  /** With word-list loops only, every program runs to its end and the flag machine does, step
      for step, what the signals say; both flags and the loop level are 0 again. Where each `if`
      has an `else` the status is always the one that is asked for. */
  lemma WordLoopsRefine(w: World, strict: bool, p: Prog, lone: bool, status: int, trace: seq<Event>, fuel: nat)
    requires Bounded(p, 0, 0) && WordLoops(p, lone)
    ensures var f := FlowProg(w, strict, p, 0, Same(status), trace, fuel);
            && f.Flow? && (!lone || !strict ==> !f.parted && f.status.xcu == f.status.shell)
            && (!f.parted ==>
                  && (f.sig == Done || f.sig == Broken)
                  && RunProg(w, p, Clean(0, status, trace), fuel)
                     == Out(f.sig == Done, Clean(0, f.status.shell, f.trace)))
  {
    WordLoopsEnd(w, strict, p, 0, Same(status), lone, trace, fuel);
    ProgramRefines(w, strict, p, status, trace, fuel);
  }
}
