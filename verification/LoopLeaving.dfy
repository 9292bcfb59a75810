/** `break n` and `continue n` inside nested loops: what is left, what is run, and what becomes of
    the flags, in the structured semantics and in the flag machine. */
module LoopLeaving {
  import opened Basics
  import opened Commands
  import opened LoopFlags
  import opened LoopFlow

  /* ----- break n and continue n leave exactly the loops they say ----- */

  // Nested word-list loops, the outermost first, around a body.
  datatype Loop = Loop(name: string, words: seq<string>)

  function Nest(loops: seq<Loop>, body: Prog): Prog {
    if loops == [] then body
    else Last(AndOr(For(loops[0].name, loops[0].words, Nest(loops[1..], body)), End))
  }

  predicate Entered(w: World, loops: seq<Loop>) {
    forall l :: l in loops ==> l.words != [] && l.name !in w.readonly
  }

  // Every loop enters its first pass.
  function FirstPasses(loops: seq<Loop>): seq<Event>
    requires forall l :: l in loops ==> l.words != []
  {
    if loops == [] then [] else [Bound(loops[0].name, loops[0].words[0])] + FirstPasses(loops[1..])
  }

  /** A signal that asks for more loops than stand around the body leaves every one of them in
      its first pass, and keeps what it still asks for. */
  lemma {:induction false} SignalLeaves(w: World, strict: bool, loops: seq<Loop>, body: Prog, level: nat, status: Both,
                                        trace: seq<Event>, fuel: nat)
    requires Entered(w, loops)
    requires var f := FlowProg(w, strict, body, level + |loops|, status, trace + FirstPasses(loops), fuel);
             f.Flow? && (f.sig.Breaking? || f.sig.Continuing?)
             && f.sig.n >= |loops| + if f.sig.Continuing? then 1 else 0
    ensures var f := FlowProg(w, strict, body, level + |loops|, status, trace + FirstPasses(loops), fuel);
            var n := f.sig.n - |loops|;
            FlowProg(w, strict, Nest(loops, body), level, status, trace, fuel) ==
            f.(sig := if f.sig.Continuing? then Continuing(n) else if n == 0 && loops != [] then Done else Breaking(n))
    decreases |loops|
  {
    if loops == [] {
      assert trace + FirstPasses(loops) == trace;
    } else {
      var l := loops[0];
      var trace1 := trace + [Bound(l.name, l.words[0])];
      assert trace + FirstPasses(loops) == trace1 + FirstPasses(loops[1..]);
      SignalLeaves(w, strict, loops[1..], body, level + 1, status, trace1, fuel);
      ForNest(w, strict, loops, body, level, status, trace, fuel);
    }
  }

  lemma ForNest(w: World, strict: bool, loops: seq<Loop>, body: Prog, level: nat, status: Both, trace: seq<Event>,
                fuel: nat)
    requires Entered(w, loops) && loops != []
    requires var l := loops[0];
             var t := trace + [Bound(l.name, l.words[0])];
             var f := FlowProg(w, strict, Nest(loops[1..], body), level + 1, status, t, fuel);
             f.Flow? && !Through(f.sig).0
    ensures var l := loops[0];
            var t := trace + [Bound(l.name, l.words[0])];
            var f := FlowProg(w, strict, Nest(loops[1..], body), level + 1, status, t, fuel);
            FlowProg(w, strict, Nest(loops, body), level, status, trace, fuel) == f.(sig := Through(f.sig).1)
  {
    hide FlowFor;
    var l := loops[0];
    assert l in loops;
    var c := For(l.name, l.words, Nest(loops[1..], body));
    assert Nest(loops, body) == Last(AndOr(c, End));
    FirstPass(w, strict, l.name, l.words, c.body, level + 1, status, trace, fuel);
    var r := FlowCmd(w, strict, c, level, status, trace, fuel);
    assert r.sig == Done ==> After(r, FlowClauses(w, strict, End, level, r.status, r.trace, fuel)) == r;
  }

  lemma FirstPass(w: World, strict: bool, name: string, words: seq<string>, p: Prog, level: nat, status: Both,
                  trace: seq<Event>, fuel: nat)
    requires words != []
    requires var f := FlowProg(w, strict, p, level, status, trace + [Bound(name, words[0])], fuel);
             f.Flow? && !Through(f.sig).0
    ensures var f := FlowProg(w, strict, p, level, status, trace + [Bound(name, words[0])], fuel);
            FlowFor(w, strict, name, words, p, level, status, trace, fuel) == f.(sig := Through(f.sig).1)
  {
  }

  // A command at the start of a body, whatever follows it.
  function Start(c: Cmd, clauses: Clauses, rest: Option<Prog>): Prog {
    if rest.None? then Last(AndOr(c, clauses)) else Next(AndOr(c, clauses), rest.value)
  }

  lemma StartFlow(w: World, strict: bool, c: Cmd, clauses: Clauses, rest: Option<Prog>, level: nat, status: Both,
                  trace: seq<Event>, fuel: nat)
    requires level > 0 && ((c.Break? && c.n >= 1) || (c.Continue? && c.n >= 1))
    ensures FlowProg(w, strict, Start(c, clauses, rest), level, status, trace, fuel) ==
            Flow(if c.Break? then Breaking(c.n) else Continuing(c.n), Same(0), trace, false, false)
  {
    var f := FlowCmd(w, strict, c, level, status, trace, fuel);
    assert FlowAndOr(w, strict, AndOr(c, clauses), level, status, trace, fuel) == f;
  }

  /* ----- the same of the flags ----- */

  // What the loops take of the pending counts: one each, of break first.
  function Taken(g: Globals, k: nat): Globals {
    if g.brk != 0 then g.(brk := g.brk - k) else g.(cont := g.cont - k)
  }

  // More is pending than loops to leave.
  predicate Pending(g: Globals, k: nat) { if g.brk == 0 then g.cont >= k + 1 else g.brk >= 1 && g.brk >= k }

  /** Flags that ask for more loops than stand around the body take every one of them out of its
      first pass, and lose one for each. */
  lemma {:induction false} FlagsLeave(w: World, loops: seq<Loop>, body: Prog, g: Globals, fuel: nat)
    requires Entered(w, loops) && g.level >= 0
    requires var r := RunProg(w, body, g.(level := g.level + |loops|, trace := g.trace + FirstPasses(loops)), fuel);
             r.Out? && r.ok && r.g.level == g.level + |loops| && Pending(r.g, |loops|)
    ensures var h := RunProg(w, body, g.(level := g.level + |loops|, trace := g.trace + FirstPasses(loops)), fuel).g;
            RunProg(w, Nest(loops, body), g, fuel) == Out(true, Taken(h, |loops|).(level := g.level))
    decreases |loops|
  {
    hide RunProg;
    if loops == [] {
      assert g.trace + FirstPasses(loops) == g.trace;
    } else {
      var l := loops[0];
      var g1 := g.(level := g.level + 1, trace := g.trace + [Bound(l.name, l.words[0])]);
      assert g.trace + FirstPasses(loops) == g1.trace + FirstPasses(loops[1..]);
      FlagsLeave(w, loops[1..], body, g1, fuel);
      OneLoop(w, loops, body, g, fuel);
    }
  }

  // The outermost loop of a nest, when its body asks to leave it.
  lemma OneLoop(w: World, loops: seq<Loop>, body: Prog, g: Globals, fuel: nat)
    requires Entered(w, loops) && loops != [] && g.level >= 0
    requires var l := loops[0];
             var g1 := g.(level := g.level + 1, trace := g.trace + [Bound(l.name, l.words[0])]);
             var r := RunProg(w, Nest(loops[1..], body), g1, fuel);
             r.Out? && r.ok && r.g.level == g.level + 1 && Pending(r.g, 1)
    ensures var l := loops[0];
            var g1 := g.(level := g.level + 1, trace := g.trace + [Bound(l.name, l.words[0])]);
            var h := RunProg(w, Nest(loops[1..], body), g1, fuel).g;
            RunProg(w, Nest(loops, body), g, fuel) == Out(true, Taken(h, 1).(level := g.level))
  {
    var l := loops[0];
    assert l in loops;
    var c := For(l.name, l.words, Nest(loops[1..], body));
    assert Nest(loops, body) == Last(AndOr(c, End));
    FirstRun(w, l.name, l.words, c.body, g.(level := g.level + 1), fuel);
    hide RunFor, Nest;
    var h := RunCmd(w, c, g, fuel).g;
    assert RunCmd(w, c, g, fuel).Out?;
    assert RunClauses(w, End, h, fuel) == Out(true, h);
  }

  lemma FirstRun(w: World, name: string, words: seq<string>, p: Prog, g: Globals, fuel: nat)
    requires words != []
    requires var r := RunProg(w, p, g.(trace := g.trace + [Bound(name, words[0])]), fuel);
             r.Out? && r.ok && Pending(r.g, 1)
    ensures var r := RunProg(w, p, g.(trace := g.trace + [Bound(name, words[0])]), fuel);
            RunFor(w, name, words, p, g, fuel) == Out(true, Taken(r.g, 1))
  {}

  lemma StartRun(w: World, c: Cmd, clauses: Clauses, rest: Option<Prog>, g: Globals, fuel: nat)
    requires g.level > 0 && ((c.Break? && c.n >= 1) || (c.Continue? && c.n >= 1))
    ensures RunProg(w, Start(c, clauses, rest), g, fuel) ==
            Out(true, if c.Break? then g.(brk := c.n, status := 0) else g.(cont := c.n, status := 0))
  {
    var r := RunCmd(w, c, g, fuel);
    assert RunAndOr(w, AndOr(c, clauses), g, fuel) == r;
  }

  /* ----- break ----- */

  /** `break n` with n at least the number of loops around it ends all of them: each has made one
      pass and nothing after the break has run. What it asks for beyond them stays in req_break,
      so that the flags are 0 again exactly when n is the number of loops. */
  lemma BreakLeaves(w: World, loops: seq<Loop>, n: nat, clauses: Clauses, rest: Option<Prog>,
                    level: nat, status: int, trace: seq<Event>, fuel: nat)
    requires Entered(w, loops) && loops != [] && n >= |loops|
    ensures var r := RunProg(w, Nest(loops, Start(Break(n), clauses, rest)), Clean(level, status, trace), fuel);
            && r == Out(true, Globals(level, n - |loops|, 0, 0, trace + FirstPasses(loops)))
            && (r == Out(true, Clean(level, 0, trace + FirstPasses(loops))) <==> n == |loops|)
  {
    var g := Globals(level + |loops|, 0, 0, status, trace + FirstPasses(loops));
    StartRun(w, Break(n), clauses, rest, g, fuel);
    hide RunProg, Nest, FirstPasses, Start;
    FlagsLeave(w, loops, Start(Break(n), clauses, rest), Clean(level, status, trace), fuel);
  }

  /** `break n` inside n nested loops ends exactly those: each has made one pass, nothing after
      the break has run, and the program goes on normally with both flags 0; the structured
      semantics says the same. */
  lemma BreakLeavesExactly(w: World, strict: bool, loops: seq<Loop>, clauses: Clauses, rest: Option<Prog>,
                           level: nat, status: int, trace: seq<Event>, fuel: nat)
    requires Entered(w, loops) && loops != []
    ensures RunProg(w, Nest(loops, Start(Break(|loops|), clauses, rest)), Clean(level, status, trace), fuel) ==
            Out(true, Clean(level, 0, trace + FirstPasses(loops)))
    ensures FlowProg(w, strict, Nest(loops, Start(Break(|loops|), clauses, rest)), level, Same(status), trace, fuel) ==
            Flow(Done, Same(0), trace + FirstPasses(loops), false, false)
  {
    hide RunProg, FlowProg, Nest;
    BreakLeaves(w, loops, |loops|, clauses, rest, level, status, trace, fuel);
    StartFlow(w, strict, Break(|loops|), clauses, rest, level + |loops|, Same(status), trace + FirstPasses(loops),
        fuel);
    SignalLeaves(w, strict, loops, Start(Break(|loops|), clauses, rest), level, Same(status), trace, fuel);
  }

  /** A break count above the nesting depth is not cut down to it: outside all loops what is left
      of it stays in req_break. */
  lemma BreakTooDeep(w: World, loops: seq<Loop>, n: nat, clauses: Clauses, rest: Option<Prog>,
                     status: int, trace: seq<Event>, fuel: nat)
    requires Entered(w, loops) && loops != [] && n > |loops|
    ensures var r := RunProg(w, Nest(loops, Start(Break(n), clauses, rest)), Clean(0, status, trace), fuel);
            r.Out? && r.ok && r.g.brk == n - |loops| > 0 && r.g.trace == trace + FirstPasses(loops)
  {
    BreakLeaves(w, loops, n, clauses, rest, 0, status, trace, fuel);
  }

  /** The next loop then pays for it: its first pass ends behind its first simple command. */
  lemma LeftOverBreak(w: World, name: string, words: seq<string>, first: string, rest: Prog, g: Globals, fuel: nat)
    requires g.level == 0 && g.brk > 0 && words != [] && name !in w.readonly
    requires w.status(first, g.trace + [Bound(name, words[0])]).Some?
    ensures var t := g.trace + [Bound(name, words[0])];
            RunCmd(w, For(name, words, Next(AndOr(Simple(first), End), rest)), g, fuel) ==
            Out(true, g.(brk := g.brk - 1, status := w.status(first, t).value, trace := t + [Ran(first)]))
  {
    var t := g.trace + [Bound(name, words[0])];
    var g1 := g.(level := 1, trace := t);
    var h := g1.(status := w.status(first, t).value, trace := t + [Ran(first)]);
    assert RunCmd(w, Simple(first), g1, fuel) == Out(true, h);
    assert RunAndOr(w, AndOr(Simple(first), End), g1, fuel) == Out(true, h);
    assert RunProg(w, Next(AndOr(Simple(first), End), rest), g1, fuel) == Out(true, h);
    FirstRun(w, name, words, Next(AndOr(Simple(first), End), rest), g.(level := 1), fuel);
  }

  /** Outside all loops nothing stops for it: the list goes on behind a simple command. */
  lemma LeftOverWaits(w: World, first: string, rest: Prog, g: Globals, fuel: nat)
    requires g.level == 0 && w.status(first, g.trace).Some?
    ensures RunProg(w, Next(AndOr(Simple(first), End), rest), g, fuel) ==
            RunProg(w, rest, g.(status := w.status(first, g.trace).value, trace := g.trace + [Ran(first)]), fuel)
  {
    var h := g.(status := w.status(first, g.trace).value, trace := g.trace + [Ran(first)]);
    assert RunCmd(w, Simple(first), g, fuel) == Out(true, h);
    assert RunAndOr(w, AndOr(Simple(first), End), g, fuel) == Out(true, h);
  }

  /* ----- continue ----- */

  /** A continue count above the nesting depth is not cut down either: what is left of it stays in
      req_continue. */
  lemma ContinueTooDeep(w: World, loops: seq<Loop>, n: nat, clauses: Clauses, rest: Option<Prog>,
                        status: int, trace: seq<Event>, fuel: nat)
    requires Entered(w, loops) && loops != [] && n > |loops|
    ensures RunProg(w, Nest(loops, Start(Continue(n), clauses, rest)), Clean(0, status, trace), fuel) ==
            Out(true, Globals(0, 0, n - |loops|, 0, trace + FirstPasses(loops)))
  {
    var body, t := Start(Continue(n), clauses, rest), trace + FirstPasses(loops);
    StartRun(w, Continue(n), clauses, rest, Clean(|loops|, status, t), fuel);
    hide RunProg, Nest, FirstPasses, Start;
    FlagsLeave(w, loops, body, Clean(0, status, trace), fuel);
  }

  // The trace of a loop whose every pass ends in `continue` out of the loops inside it.
  function Passes(name: string, words: seq<string>, inner: seq<Loop>): seq<Event>
    requires forall l :: l in inner ==> l.words != []
  {
    if words == [] then [] else [Bound(name, words[0])] + FirstPasses(inner) + Passes(name, words[1..], inner)
  }

  /** `continue n` inside n nested loops ends the n - 1 inner ones after one pass and goes on
      with the next word of the outermost, for all its words; nothing after the continue runs,
      and the flags are 0 again. */
  lemma ContinueResumes(w: World, strict: bool, name: string, words: seq<string>, inner: seq<Loop>, clauses: Clauses,
                        rest: Option<Prog>, level: nat, status: int, trace: seq<Event>, fuel: nat)
    requires Entered(w, inner) && name !in w.readonly
    ensures var body := Nest(inner, Start(Continue(|inner| + 1), clauses, rest));
            && RunCmd(w, For(name, words, body), Clean(level, status, trace), fuel) ==
               Out(true, Clean(level, 0, trace + Passes(name, words, inner)))
            && FlowCmd(w, strict, For(name, words, body), level, Same(status), trace, fuel) ==
               Flow(Done, Same(0), trace + Passes(name, words, inner), false, false)
  {
    ContinueFlow(w, strict, name, words, inner, clauses, rest, level, Same(status), trace, fuel);
    ContinueRun(w, name, words, inner, clauses, rest, level, status, trace, fuel);
    hide RunFor, FlowFor, Nest, Start;
    if words == [] { assert trace + Passes(name, words, inner) == trace; }
  }

  lemma {:induction false} ContinueRun(w: World, name: string, words: seq<string>, inner: seq<Loop>, clauses: Clauses,
                                       rest: Option<Prog>, level: nat, status: int, trace: seq<Event>, fuel: nat)
    requires Entered(w, inner)
    ensures var body := Nest(inner, Start(Continue(|inner| + 1), clauses, rest));
            RunFor(w, name, words, body, Clean(level + 1, status, trace), fuel) ==
            Out(true, Clean(level + 1, if words == [] then status else 0, trace + Passes(name, words, inner)))
    decreases |words|
  {
    hide RunProg, FirstPasses, Nest, Start, AfterBody;
    if words == [] {
      assert trace + Passes(name, words, inner) == trace;
    } else {
      var trace1 := trace + [Bound(name, words[0])];
      var trace2 := trace1 + FirstPasses(inner);
      ContinueOnce(w, inner, clauses, rest, level + 1, status, trace1, fuel);
      PassDone(level + 1, trace2);
      ContinueRun(w, name, words[1..], inner, clauses, rest, level, 0, trace2, fuel);
      assert trace2 + Passes(name, words[1..], inner) == trace + Passes(name, words, inner);
    }
  }

  lemma PassDone(level: nat, trace: seq<Event>)
    ensures AfterBody(Globals(level, 0, 1, 0, trace)) == GoOn(Clean(level, 0, trace))
  {}

  lemma ContinueOnce(w: World, inner: seq<Loop>, clauses: Clauses, rest: Option<Prog>, level: nat, status: int,
                     trace: seq<Event>, fuel: nat)
    requires Entered(w, inner) && level > 0
    ensures RunProg(w, Nest(inner, Start(Continue(|inner| + 1), clauses, rest)), Clean(level, status, trace), fuel) ==
            Out(true, Globals(level, 0, 1, 0, trace + FirstPasses(inner)))
  {
    var g := Globals(level + |inner|, 0, 0, status, trace + FirstPasses(inner));
    StartRun(w, Continue(|inner| + 1), clauses, rest, g, fuel);
    hide RunProg, Nest, FirstPasses, Start;
    FlagsLeave(w, inner, Start(Continue(|inner| + 1), clauses, rest), Clean(level, status, trace), fuel);
  }

  // The loop in the structured semantics.
  lemma {:induction false} ContinueFlow(w: World, strict: bool, name: string, words: seq<string>, inner: seq<Loop>,
                                        clauses: Clauses, rest: Option<Prog>, level: nat, status: Both,
                                        trace: seq<Event>, fuel: nat)
    requires Entered(w, inner)
    ensures var body := Nest(inner, Start(Continue(|inner| + 1), clauses, rest));
            FlowFor(w, strict, name, words, body, level + 1, status, trace, fuel) ==
            Flow(Done, if words == [] then status else Same(0), trace + Passes(name, words, inner), false, false)
    decreases |words|
  {
    if words == [] {
      assert trace + Passes(name, words, inner) == trace;
    } else {
      var body := Nest(inner, Start(Continue(|inner| + 1), clauses, rest));
      var trace1 := trace + [Bound(name, words[0])];
      var trace2 := trace1 + FirstPasses(inner);
      assert trace2 + Passes(name, words[1..], inner) == trace + Passes(name, words, inner);
      hide FlowProg, FlowFor, FirstPasses, Nest, Start, Passes;
      ContinuePass(w, strict, inner, clauses, rest, level + 1, status, trace1, fuel);
      PassFlows(w, strict, name, words, body, level + 1, status, trace, trace2, fuel);
      ContinueFlow(w, strict, name, words[1..], inner, clauses, rest, level, Same(0), trace2, fuel);
    }
  }

  // A pass that ends in `continue 1` goes on to the next one.
  lemma PassFlows(w: World, strict: bool, name: string, words: seq<string>, body: Prog, level: nat, status: Both,
                  trace: seq<Event>, trace2: seq<Event>, fuel: nat)
    requires words != []
    requires FlowProg(w, strict, body, level, status, trace + [Bound(name, words[0])], fuel)
          == Flow(Continuing(1), Same(0), trace2, false, false)
    ensures FlowFor(w, strict, name, words, body, level, status, trace, fuel)
         == FlowFor(w, strict, name, words[1..], body, level, Same(0), trace2, fuel)
  {
    hide FlowProg;
    var next := FlowFor(w, strict, name, words[1..], body, level, Same(0), trace2, fuel);
    AfterNothing(Flow(Continuing(1), Same(0), trace2, false, false), next);
  }

  lemma ContinuePass(w: World, strict: bool, inner: seq<Loop>, clauses: Clauses, rest: Option<Prog>, level: nat,
                     status: Both, trace: seq<Event>, fuel: nat)
    requires Entered(w, inner) && level > 0
    ensures FlowProg(w, strict, Nest(inner, Start(Continue(|inner| + 1), clauses, rest)), level, status, trace, fuel) ==
            Flow(Continuing(1), Same(0), trace + FirstPasses(inner), false, false)
  {
    StartFlow(w, strict, Continue(|inner| + 1), clauses, rest, level + |inner|, status, trace + FirstPasses(inner),
        fuel);
    SignalLeaves(w, strict, inner, Start(Continue(|inner| + 1), clauses, rest), level, status, trace, fuel);
  }

  /* ----- leaving a while or until loop in its first pass ----- */

  function Test(name: string): Prog { Last(AndOr(Simple(name), End)) }

  // The test lets the first pass begin.
  predicate Begins(w: World, until: bool, test: string, trace: seq<Event>) {
    var st := w.status(test, trace);
    st.Some? && (st.value == 0) != until
  }

  lemma TestRuns(w: World, strict: bool, test: string, level: nat, status: int, trace: seq<Event>, fuel: nat)
    requires w.status(test, trace).Some?
    ensures var st, t := w.status(test, trace).value, trace + [Ran(test)];
            && RunProg(w, Test(test), Clean(level, status, trace), fuel) == Out(true, Clean(level, st, t))
            && FlowProg(w, strict, Test(test), level, Same(status), trace, fuel)
               == Flow(Done, Same(st), t, false, false)
  {
    var st, t := w.status(test, trace).value, trace + [Ran(test)];
    assert RunClauses(w, End, Clean(level, st, t), fuel) == Out(true, Clean(level, st, t));
    assert RunAndOr(w, AndOr(Simple(test), End), Clean(level, status, trace), fuel) == Out(true, Clean(level, st, t));
    assert FlowClauses(w, strict, End, level, Same(st), t, fuel) == Flow(Done, Same(st), t, false, false);
    assert FlowAndOr(w, strict, AndOr(Simple(test), End), level, Same(status), trace, fuel)
           == Flow(Done, Same(st), t, false, false);
  }

  // The loop alone.
  lemma LeftAtOnce(w: World, strict: bool, until: bool, test: string, clauses: Clauses, inside: Option<Prog>,
                   level: nat, status: int, trace: seq<Event>, fuel: nat)
    requires Begins(w, until, test, trace)
    ensures var c, t := While(until, Test(test), Start(Break(1), clauses, inside)), trace + [Ran(test)];
            && RunCmd(w, c, Clean(level, status, trace), fuel) == Out(false, Clean(level, 0, t))
            && FlowCmd(w, strict, c, level, Same(status), trace, fuel) == Flow(Done, Same(0), t, true, false)
  {
    var c, t := While(until, Test(test), Start(Break(1), clauses, inside)), trace + [Ran(test)];
    var st := w.status(test, trace).value;
    hide RunProg, FlowProg, Start;
    TestRuns(w, strict, test, level + 1, status, trace, fuel);
    StartRun(w, Break(1), clauses, inside, Clean(level + 1, st, t), fuel);
    StartFlow(w, strict, Break(1), clauses, inside, level + 1, Same(st), t, fuel);
    assert FlowPass(w, strict, c, level + 1, Same(st), t, true, fuel) == Flow(Done, Same(0), t, true, false);
  }

  /** A while or until loop that breaks in its first pass makes the whole list after it be
      skipped, whatever it is, where section 2.14 goes on with it. */
  lemma FirstPassBreak(w: World, strict: bool, until: bool, test: string, clauses: Clauses, inside: Option<Prog>,
                       rest: Prog, level: nat, status: int, trace: seq<Event>, fuel: nat)
    requires Begins(w, until, test, trace)
    ensures var c, t := While(until, Test(test), Start(Break(1), clauses, inside)), trace + [Ran(test)];
            && RunProg(w, Next(AndOr(c, End), rest), Clean(level, status, trace), fuel)
               == Out(false, Clean(level, 0, t))
            && FlowProg(w, strict, Next(AndOr(c, End), rest), level, Same(status), trace, fuel) ==
               After(Flow(Done, Same(0), t, true, false), FlowProg(w, strict, rest, level, Same(0), t, fuel))
  {
    var c, t := While(until, Test(test), Start(Break(1), clauses, inside)), trace + [Ran(test)];
    LeftAtOnce(w, strict, until, test, clauses, inside, level, status, trace, fuel);
    hide RunCmd, FlowCmd, Start, Test, Begins;
    assert RunAndOr(w, AndOr(c, End), Clean(level, status, trace), fuel) == Out(false, Clean(level, 0, t));
    assert FlowAndOr(w, strict, AndOr(c, End), level, Same(status), trace, fuel) == Flow(Done, Same(0), t, true, false);
  }

  /** What the flags are after a while or until loop left in its first pass, by `break n` or by
      `continue n` for an outer loop: one less than asked for, and the loop reports failure. */
  lemma LeftInFirstPass(w: World, until: bool, test: string, c: Cmd, clauses: Clauses, inside: Option<Prog>,
                        level: nat, status: int, trace: seq<Event>, fuel: nat)
    requires Begins(w, until, test, trace) && ((c.Break? && c.n >= 1) || (c.Continue? && c.n >= 2))
    ensures RunCmd(w, While(until, Test(test), Start(c, clauses, inside)), Clean(level, status, trace), fuel) ==
            Out(false, Globals(level, if c.Break? then c.n - 1 else 0, if c.Continue? then c.n - 1 else 0, 0,
                               trace + [Ran(test)]))
  {
    var loop, t := While(until, Test(test), Start(c, clauses, inside)), trace + [Ran(test)];
    var st := w.status(test, trace).value;
    hide RunProg, Start;
    TestRuns(w, false, test, level + 1, status, trace, fuel);
    StartRun(w, c, clauses, inside, Clean(level + 1, st, t), fuel);
    assert Clean(level, status, trace).(level := level + 1) == Clean(level + 1, status, trace);
  }

  /* ----- the status a loop leaves ----- */

  /** A while loop that makes no pass leaves the status of its test, where section 2.9.4 asks for
      0: what is to run after it by `&&` does not run, and what is to run by `||` does. */
  lemma NoPassFails(w: World, test: string, body: Prog, next: Cmd, level: nat, status: int, trace: seq<Event>,
                    fuel: nat)
    requires w.status(test, trace).Some? && w.status(test, trace).value != 0
    ensures var c, t := While(false, Test(test), body), trace + [Ran(test)];
            var st := w.status(test, trace).value;
            && RunAndOr(w, AndOr(c, Clause(true, next, End)), Clean(level, status, trace), fuel) ==
               Out(true, Clean(level, st, t))
            && FlowAndOr(w, true, AndOr(c, Clause(true, next, End)), level, Same(status), trace, fuel) ==
               FlowClauses(w, true, Clause(true, next, End), level, Both(0, st), t, fuel)
  {
    var c, t := While(false, Test(test), body), trace + [Ran(test)];
    var st, cs := w.status(test, trace).value, Clause(true, next, End);
    hide RunProg, FlowProg, Test;
    TestRuns(w, true, test, level + 1, status, trace, fuel);
    assert RunWhile(w, c, Clean(level + 1, status, trace), false, fuel) == Out(true, Clean(level + 1, st, t));
    assert Clean(level, status, trace).(level := level + 1) == Clean(level + 1, status, trace);
    assert RunCmd(w, c, Clean(level, status, trace), fuel) == Out(true, Clean(level, st, t));
    var f := FlowCmd(w, true, c, level, Same(status), trace, fuel);
    assert FlowWhile(w, true, c, level + 1, Same(status), 0, trace, true, fuel)
           == Flow(Done, Both(0, st), t, false, false);
    assert RunClauses(w, End, Clean(level, st, t), fuel) == Out(true, Clean(level, st, t));
    assert RunClauses(w, cs, Clean(level, st, t), fuel) == Out(true, Clean(level, st, t));
    hide RunCmd, FlowCmd;
    AfterNothing(f, FlowClauses(w, true, cs, level, f.status, t, fuel));
  }

  lemma AfterNothing(f: Flow, g: Flow)
    requires f.Flow? && !f.early && !f.parted
    ensures After(f, g) == g
  {}
}
