/** Waiting for a foreground pipeline: the SIGCHLD handler fills the dead list, wait_on_child
    drains it. The two are steps of one machine that may come in any order. */
module Waiting {
  import opened Basics
  import opened Processes

  const DEADLIST_MAX: nat := 32

  datatype Entry = Entry(pid: int, status: Status)

  /** The position of pid in the dead list, or its length. */
  function Lookup(dead: seq<Entry>, pid: int): (i: nat)
    ensures i <= |dead| && forall k :: 0 <= k < i ==> dead[k].pid != pid
    ensures i < |dead| ==> dead[i].pid == pid
  {
    if dead == [] || dead[0].pid == pid then 0 else 1 + Lookup(dead[1..], pid)
  }

  /** notice_termination: a process already on the list gets the new status, another is added
      as long as there is room. */
  function Note(dead: seq<Entry>, pid: int, s: Status): seq<Entry> {
    var i := Lookup(dead, pid);
    if pid <= 0 then dead
    else if i < |dead| then dead[i := Entry(pid, s)]
    else if |dead| < DEADLIST_MAX then dead + [Entry(pid, s)]
    else dead
  }

  // rip_dead, when pid is on the list.
  function Ripped(dead: seq<Entry>, pid: int): seq<Entry> {
    var i := Lookup(dead, pid);
    if i < |dead| then dead[..i] + dead[i + 1..] else dead
  }

  /* ----- the machine ----- */

  /** Where the waiter stands. Ready is before rip_dead; Empty after one that found nothing; Going
      after the look at `signal_received` that follows, right before sigsuspend; Asleep within it;
      Holding after a rip_dead that took a status off the list. Finished is the normal way out of
      wait_on_child, Handed the one for a stopped or killed process under job control,
      Interrupted the one for SIGINT. */
  datatype Phase = Ready | Empty | Going | Asleep | Holding(s: Status) | Finished | Handed | Interrupted

  predicate Open(p: Phase) { !p.Finished? && !p.Handed? && !p.Interrupted? }

  // Any signal that is handled ends sigsuspend.
  function Woken(p: Phase): Phase { if p.Asleep? then Ready else p }

  /** pid is the process waited for now, asked the one the caller named (`waiting_pid`); sigint
      tells whether SIGINT was the last signal handled. The job is not in the jobs table yet, so
      that the handler does not reach it. */
  datatype Wait = Wait(dead: seq<Entry>, job: Job, pid: int, asked: int, res: Option<Status>, sigint: bool,
      phase: Phase)

  // The handlers, which run whenever a signal comes, and the steps of the waiter.
  datatype Event = Child(pid: int, s: Status) | Int | TryRip | Check | Suspend | Take

  // The first process whose exit bit is not set.
  function FirstUnset(j: Job, i: nat): (k: nat)
    requires i <= |j.pids|
    ensures i <= k <= |j.pids| && forall l :: i <= l < k ==> l in j.bits
    ensures k < |j.pids| ==> k !in j.bits
    decreases |j.pids| - i
  {
    if i == |j.pids| || i !in j.bits then i else FirstUnset(j, i + 1)
  }

  // What the dead list says of pid.
  function Listed(dead: seq<Entry>, pid: int): Option<Status> {
    var i := Lookup(dead, pid);
    if i < |dead| then Some(dead[i].status) else None
  }

  // rip_dead as the waiter calls it.
  function TryRipStep(w: Wait): Wait {
    match Listed(w.dead, w.pid)
    case None => w.(phase := Empty)
    case Some(s) => w.(dead := Ripped(w.dead, w.pid), phase := Holding(s))
  }

  /** From a status off the list to the next wait or the return. */
  function TakeStep(w: Wait, monitor: bool): Wait
    requires w.phase.Holding?
  {
    var s := w.phase.s;
    var w1 := w.(job := Report(w.job, w.pid, s), res := if w.pid == w.asked then Some(s) else w.res);
    if monitor && (s.Stopped? || s.Signaled?) then
      w1.(dead := Note(w1.dead, w.pid, s), phase := Handed)
    else
      var next := FirstUnset(w1.job, 0);
      if w1.job.exits < |w1.job.pids| && next < |w1.job.pids| then w1.(pid := w1.job.pids[next], phase := Ready)
      else w1.(job := w1.job.(notified := true), phase := Finished)
  }

  // None when the event cannot happen.
  function Step(w: Wait, monitor: bool, e: Event): Option<Wait> {
    match e
    case Child(p, s) =>
      if Open(w.phase) then Some(w.(dead := Note(w.dead, p, s), sigint := false, phase := Woken(w.phase))) else None
    case Int => if Open(w.phase) then Some(w.(sigint := true, phase := Woken(w.phase))) else None
    case TryRip => if w.phase.Ready? then Some(TryRipStep(w)) else None
    case Check => if w.phase.Empty? then Some(w.(phase := if w.sigint then Interrupted else Going)) else None
    case Suspend => if w.phase.Going? then Some(w.(phase := Asleep)) else None
    case Take => if w.phase.Holding? then Some(TakeStep(w, monitor)) else None
  }

  /** Any interleaving: the state after a sequence of events, None if one of them cannot happen. */
  function Run(w: Wait, monitor: bool, es: seq<Event>): Option<Wait> {
    if es == [] then Some(w)
    else
      match Run(w, monitor, es[..|es| - 1])
      case None => None
      case Some(w1) => Step(w1, monitor, es[|es| - 1])
  }

  // sigint is what an earlier signal may have left.
  function Begin(dead: seq<Entry>, job: Job, asked: int, sigint: bool): Wait {
    Wait(dead, job, asked, asked, None, sigint, Ready)
  }

  /* ----- what every interleaving keeps ----- */

  // The process asked for is one of the job's and has not terminated yet.
  ghost predicate Waitable(job: Job, asked: int) {
    Valid(job) && Find(job.pids, asked) < |job.pids| && Find(job.pids, asked) !in job.bits
  }

  /** The process waited for is one whose exit bit is not set; the result is the last recorded
      status of the process asked for, and there is one once its bit is set. */
  ghost predicate Inv(w: Wait, job: Job) {
    var a := Find(job.pids, w.asked);
    && Valid(w.job) && w.job.pids == job.pids && a < |job.pids|
    && (Open(w.phase) ==> Find(job.pids, w.pid) < |job.pids| && Find(job.pids, w.pid) !in w.job.bits)
    && (w.res.Some? ==> a in w.job.codes && w.job.codes[a] == w.res.value)
    && (a in w.job.bits ==> w.res.Some?)
    && (w.phase.Finished? ==> w.job.exits == |w.job.pids|)
  }

  lemma NotifiedValid(j: Job)
    requires Valid(j)
    ensures Valid(j.(notified := true))
  {
  }

  // What recording the status of the process waited for does to the entry of the one asked for.
  lemma ReportAsked(j: Job, pid: int, s: Status, asked: int)
    requires Valid(j) && Find(j.pids, pid) < |j.pids| && Find(j.pids, asked) < |j.pids|
    ensures var r, a := Report(j, pid, s), Find(j.pids, asked);
            && r.pids == j.pids
            && (pid == asked ==> a in r.codes && r.codes[a] == s)
            && (pid != asked ==> (a in r.codes <==> a in j.codes) && (a in j.codes ==> r.codes[a] == j.codes[a])
                                 && (a in r.bits <==> a in j.bits))
  {
    hide CountBits, Valid;
  }

  // The process to go on with is one whose bit is not set; with none left all are counted.
  lemma NextWaited(j: Job)
    requires Valid(j)
    ensures var next := FirstUnset(j, 0);
            && (next < |j.pids| ==> Find(j.pids, j.pids[next]) == next && next !in j.bits)
            && (j.exits < |j.pids| <==> next < |j.pids|) && j.exits <= |j.pids|
  {
    var next := FirstUnset(j, 0);
    CountAll(j.bits, |j.pids|);
    if next < |j.pids| { FindUnique(j.pids, next); }
  }

  // The result and the entry of the process asked for, after the status that is taken.
  lemma TakeResult(w: Wait, s: Status, job: Job)
    requires Inv(w, job) && Open(w.phase)
    ensures var j, a := Report(w.job, w.pid, s), Find(job.pids, w.asked);
            var res := if w.pid == w.asked then Some(s) else w.res;
            && Valid(j) && j.pids == job.pids && a < |job.pids|
            && (res.Some? ==> a in j.codes && j.codes[a] == res.value)
            && (a in j.bits ==> res.Some?)
  {
    hide CountBits, Report, Valid, Find;
    ReportValid(w.job, w.pid, s);
    ReportAsked(w.job, w.pid, s, w.asked);
  }

  lemma TakeKeeps(w: Wait, monitor: bool, job: Job)
    requires Inv(w, job) && w.phase.Holding?
    ensures Inv(TakeStep(w, monitor), job) && TakeStep(w, monitor).asked == w.asked
  {
    var j := Report(w.job, w.pid, w.phase.s);
    TakeResult(w, w.phase.s, job);
    hide CountBits, Lookup, Ripped, Note, Report, Valid, FirstUnset, Find;
    NextWaited(j);
    NotifiedValid(j);
  }

  lemma StepKeeps(w: Wait, monitor: bool, e: Event, job: Job)
    requires Inv(w, job)
    ensures var r := Step(w, monitor, e); r.Some? ==> Inv(r.value, job) && r.value.asked == w.asked
  {
    hide Valid, CountBits, TakeStep, Find;
    if e.Take? && w.phase.Holding? { TakeKeeps(w, monitor, job); }
  }

  lemma {:induction false} RunKeeps(w: Wait, monitor: bool, es: seq<Event>, job: Job)
    requires Inv(w, job)
    ensures var r := Run(w, monitor, es); r.Some? ==> Inv(r.value, job) && r.value.asked == w.asked
    decreases |es|
  {
    hide Inv, Step;
    if es != [] {
      var before := es[..|es| - 1];
      RunKeeps(w, monitor, before, job);
      var r := Run(w, monitor, before);
      if r.Some? { StepKeeps(r.value, monitor, es[|es| - 1], job); }
    }
  }

  /** Over every interleaving: when wait_on_child returns by its normal path, every process of
      the job has its exit bit set and a termination recorded, and the value returned is the
      termination of the process asked for. */
  lemma NormalReturn(dead: seq<Entry>, job: Job, asked: int, sigint: bool, monitor: bool, es: seq<Event>)
    requires Waitable(job, asked)
    requires var r := Run(Begin(dead, job, asked, sigint), monitor, es); r.Some? && r.value.phase.Finished?
    ensures var w := Run(Begin(dead, job, asked, sigint), monitor, es).value;
            && w.job.pids == job.pids
            && (forall i :: 0 <= i < |job.pids| ==>
                  i in w.job.bits && i in w.job.codes && Terminated(w.job.codes[i]))
            && w.res == Some(w.job.codes[Find(job.pids, asked)])
  {
    RunKeeps(Begin(dead, job, asked, sigint), monitor, es, job);
    var w := Run(Begin(dead, job, asked, sigint), monitor, es).value;
    CountAll(w.job.bits, |job.pids|);
  }

  /* ----- progress ----- */

  // The processes still waited on, by position.
  function Unset(j: Job): set<nat> { set i | 0 <= i < |j.pids| && i !in j.bits }

  /** Taking a termination takes exactly the process waited for out of the set still waited on;
      taking anything else leaves the set as it was. */
  lemma TakeShrinks(w: Wait, monitor: bool, job: Job)
    requires Inv(w, job) && w.phase.Holding?
    ensures var i := Find(job.pids, w.pid);
            && i in Unset(w.job)
            && Unset(TakeStep(w, monitor).job) ==
               if Terminated(w.phase.s) then Unset(w.job) - {i} else Unset(w.job)
  {
    hide CountBits, Lookup, Ripped, Note;
  }

  // The terminations of pid taken in a run.
  function Deaths(w: Wait, monitor: bool, es: seq<Event>, pid: int): nat {
    if es == [] then 0
    else
      var before := es[..|es| - 1];
      var r := Run(w, monitor, before);
      Deaths(w, monitor, before, pid) +
      if es[|es| - 1].Take? && r.Some? && r.value.phase.Holding? && r.value.pid == pid && Terminated(r.value.phase.s)
      then 1 else 0
  }

  lemma {:induction false} DeathsCount(w: Wait, monitor: bool, es: seq<Event>, job: Job, i: nat)
    requires Inv(w, job) && i < |job.pids| && Run(w, monitor, es).Some?
    ensures Deaths(w, monitor, es, job.pids[i]) + (if i in w.job.bits then 1 else 0) ==
            if i in Run(w, monitor, es).value.job.bits then 1 else 0
    decreases |es|
  {
    if es != [] {
      var before := es[..|es| - 1];
      DeathsCount(w, monitor, before, job, i);
      RunKeeps(w, monitor, before, job);
      hide Inv, Step;
      DeathStep(Run(w, monitor, before).value, monitor, es[|es| - 1], job, i);
    }
  }

  lemma DeathStep(w: Wait, monitor: bool, e: Event, job: Job, i: nat)
    requires Inv(w, job) && i < |job.pids| && Step(w, monitor, e).Some?
    ensures var dies := e.Take? && w.phase.Holding? && w.pid == job.pids[i] && Terminated(w.phase.s);
            && (i in Step(w, monitor, e).value.job.bits <==> i in w.job.bits || dies)
            && (dies ==> i !in w.job.bits)
  {
    hide Inv, TakeStep, TryRipStep;
    if e.Take? { TakeBit(w, monitor, job, i); }
    if e.TryRip? { TryRipJob(w); }
  }

  lemma TryRipJob(w: Wait)
    ensures TryRipStep(w).job == w.job
  {}

  lemma TakeBit(w: Wait, monitor: bool, job: Job, i: nat)
    requires Inv(w, job) && w.phase.Holding? && i < |job.pids|
    ensures i in TakeStep(w, monitor).job.bits <==> i in w.job.bits || (w.pid == job.pids[i] && Terminated(w.phase.s))
    ensures w.pid == job.pids[i] ==> i !in w.job.bits
  {
    FindUnique(job.pids, i);
    TakeShrinks(w, monitor, job);
    TakeKeeps(w, monitor, job);
    assert i in Unset(w.job) <==> i !in w.job.bits;
    assert i in Unset(TakeStep(w, monitor).job) <==> i !in TakeStep(w, monitor).job.bits;
  }

  /** In a wait that returns normally, one termination has been taken for every process that
      had not terminated before, and none for the others. */
  lemma EachDiesOnce(dead: seq<Entry>, job: Job, asked: int, sigint: bool, monitor: bool, es: seq<Event>, i: nat)
    requires Waitable(job, asked) && i < |job.pids|
    requires var r := Run(Begin(dead, job, asked, sigint), monitor, es); r.Some? && r.value.phase.Finished?
    ensures Deaths(Begin(dead, job, asked, sigint), monitor, es, job.pids[i]) == if i in job.bits then 0 else 1
  {
    DeathsCount(Begin(dead, job, asked, sigint), monitor, es, job, i);
    NormalReturn(dead, job, asked, sigint, monitor, es);
  }

  /* ----- no termination is lost ----- */

  lemma {:induction false} LookupUpdate(dead: seq<Entry>, i: nat, e: Entry, q: int)
    requires i < |dead| && dead[i].pid == e.pid && e.pid != q
    ensures Listed(dead[i := e], q) == Listed(dead, q)
  {
    if dead[0].pid != q {
      if i > 0 {
        assert dead[i := e][1..] == dead[1..][i - 1 := e];
        LookupUpdate(dead[1..], i - 1, e, q);
      } else {
        assert dead[i := e][1..] == dead[1..];
      }
    }
  }

  lemma {:induction false} LookupAppend(dead: seq<Entry>, e: Entry, q: int)
    ensures Listed(dead + [e], q) ==
            if Listed(dead, q).Some? then Listed(dead, q) else if e.pid == q then Some(e.status) else None
  {
    if dead != [] {
      assert (dead + [e])[1..] == dead[1..] + [e];
      LookupAppend(dead[1..], e, q);
    }
  }

  lemma {:induction false} LookupRemove(dead: seq<Entry>, i: nat, q: int)
    requires i < |dead| && dead[i].pid != q
    ensures Listed(dead[..i] + dead[i + 1..], q) == Listed(dead, q)
  {
    if i == 0 {
      assert dead[..0] + dead[1..] == dead[1..];
    } else {
      assert (dead[..i] + dead[i + 1..])[1..] == dead[1..][..i - 1] + dead[1..][i..];
      LookupRemove(dead[1..], i - 1, q);
    }
  }

  lemma NoteListed(dead: seq<Entry>, p: int, s: Status, q: int)
    requires |dead| < DEADLIST_MAX && p > 0
    ensures Listed(Note(dead, p, s), q) == if p == q then Some(s) else Listed(dead, q)
  {
    var i := Lookup(dead, p);
    if i < |dead| {
      if p != q { LookupUpdate(dead, i, Entry(p, s), q); } else { LookupSet(dead, i, Entry(p, s)); }
    } else {
      LookupAppend(dead, Entry(p, s), q);
    }
  }

  lemma {:induction false} LookupSet(dead: seq<Entry>, i: nat, e: Entry)
    requires i == Lookup(dead, e.pid) < |dead|
    ensures Listed(dead[i := e], e.pid) == Some(e.status)
  {
    if i > 0 {
      assert dead[i := e][1..] == dead[1..][i - 1 := e];
      LookupSet(dead[1..], i - 1, e);
    }
  }

  lemma RippedListed(dead: seq<Entry>, p: int, q: int)
    requires p != q
    ensures Listed(Ripped(dead, p), q) == Listed(dead, q)
  {
    var i := Lookup(dead, p);
    if i < |dead| { LookupRemove(dead, i, q); }
  }

  // The termination of pid has been delivered.
  predicate Died(es: seq<Event>, pid: int) {
    exists k :: 0 <= k < |es| && es[k].Child? && es[k].pid == pid && Terminated(es[k].s)
  }

  // A process that has terminated reports nothing more.
  predicate WellBehaved(es: seq<Event>) {
    forall i, k :: 0 <= i < k < |es| && es[i].Child? && es[k].Child? && es[i].pid == es[k].pid ==> !Terminated(es[i].s)
  }

  /* ----- when the list has room ----- */

  // One entry a process, and only of these processes.
  ghost predicate Drawn(dead: seq<Entry>, pids: set<int>) {
    && (forall i, k :: 0 <= i < k < |dead| ==> dead[i].pid != dead[k].pid)
    && (forall i :: 0 <= i < |dead| ==> dead[i].pid in pids)
  }

  lemma {:induction false} DrawnSize(dead: seq<Entry>, pids: set<int>)
    requires Drawn(dead, pids)
    ensures |dead| <= |pids|
    decreases |dead|
  {
    if dead != [] {
      var rest, p := dead[..|dead| - 1], dead[|dead| - 1].pid;
      assert Drawn(rest, pids - {p});
      DrawnSize(rest, pids - {p});
    }
  }

  lemma NoteDrawn(dead: seq<Entry>, p: int, s: Status, pids: set<int>)
    requires Drawn(dead, pids) && p in pids
    ensures Drawn(Note(dead, p, s), pids)
  {
  }

  lemma RippedDrawn(dead: seq<Entry>, p: int, pids: set<int>)
    requires Drawn(dead, pids)
    ensures Drawn(Ripped(dead, p), pids)
  {
    var r, i := Ripped(dead, p), Lookup(dead, p);
    if i < |dead| {
      forall k | 0 <= k < |r| ensures r[k] == dead[if k < i then k else k + 1] {}
    }
  }

  /** The list begins with one entry a process, and it and all reports, however many, are of
      fewer processes than it has room for. */
  ghost predicate Few(dead: seq<Entry>, es: seq<Event>, pids: set<int>) {
    |pids| < 32 && Drawn(dead, pids) && forall k :: 0 <= k < |es| && es[k].Child? ==> es[k].pid in pids
  }

  lemma StepDrawn(w: Wait, monitor: bool, e: Event, pids: set<int>)
    requires Drawn(w.dead, pids) && (e.Child? ==> e.pid in pids)
    requires w.phase.Holding? ==> w.pid in pids
    ensures var r := Step(w, monitor, e); r.Some? ==>
              Drawn(r.value.dead, pids) && (r.value.phase.Holding? ==> r.value.pid in pids)
  {
    match e
    case Child(p, s) => NoteDrawn(w.dead, p, s, pids);
    case TryRip => RippedDrawn(w.dead, w.pid, pids);
    case Take =>
      if w.phase.Holding? {
        NoteDrawn(w.dead, w.pid, w.phase.s, pids);
        hide Drawn, Note, Ripped, Report, FirstUnset;
      }
    case _ =>
  }

  /** Then the list never fills: it keeps one entry a process in every state reached. */
  lemma {:induction false} NeverFull(w: Wait, monitor: bool, es: seq<Event>, pids: set<int>)
    requires Few(w.dead, es, pids) && w.phase.Ready?
    ensures var r := Run(w, monitor, es);
            r.Some? ==> Drawn(r.value.dead, pids) && |r.value.dead| < DEADLIST_MAX
                        && (r.value.phase.Holding? ==> r.value.pid in pids)
    decreases |es|
  {
    var before := es[..|es| - if es == [] then 0 else 1];
    if es != [] {
      forall k | 0 <= k < |before| ensures before[k] == es[k] {}
      NeverFull(w, monitor, before, pids);
      var r := Run(w, monitor, before);
      hide Drawn;
      if r.Some? { StepDrawn(r.value, monitor, es[|es| - 1], pids); }
    }
    var r := Run(w, monitor, es);
    if r.Some? { DrawnSize(r.value.dead, pids); }
  }

  /* ----- what has come since the list was last looked at ----- */

  // The last report of pid since the last rip_dead.
  function Since(es: seq<Event>, pid: int): Option<Status> {
    if es == [] then None
    else match es[|es| - 1]
      case TryRip => None
      case Child(p, s) => if p == pid && p > 0 then Some(s) else Since(es[..|es| - 1], pid)
      case _ => Since(es[..|es| - 1], pid)
  }

  // After rip_dead, and before anything is done about what it found or sigsuspend has returned.
  predicate Looked(p: Phase) { p.Empty? || p.Going? || p.Asleep? || p.Holding? }

  /** From a rip_dead to the next, the list has exactly what has been reported in between of the
      process waited for. So the waiter sleeps with a report of that process on the list if and
      only if one came after rip_dead had found nothing, and before sigsuspend. */
  lemma {:induction false} ListedSince(dead: seq<Entry>, job: Job, asked: int, sigint: bool, monitor: bool,
                                       es: seq<Event>, pids: set<int>)
    requires Few(dead, es, pids)
    ensures var r := Run(Begin(dead, job, asked, sigint), monitor, es);
            r.Some? && Looked(r.value.phase) ==> Listed(r.value.dead, r.value.pid) == Since(es, r.value.pid)
    decreases |es|
  {
    var w0 := Begin(dead, job, asked, sigint);
    if es != [] {
      var before, e := es[..|es| - 1], es[|es| - 1];
      forall k | 0 <= k < |before| ensures before[k] == es[k] {}
      assert Few(dead, before, pids);
      ListedSince(dead, job, asked, sigint, monitor, before, pids);
      NeverFull(w0, monitor, before, pids);
      var r := Run(w0, monitor, before);
      hide Few;
      if r.Some? { StepSince(r.value, monitor, before, e, es, pids); }
    }
  }

  lemma StepSince(w: Wait, monitor: bool, before: seq<Event>, e: Event, es: seq<Event>, pids: set<int>)
    requires Drawn(w.dead, pids) && |w.dead| < DEADLIST_MAX && es != [] && before == es[..|es| - 1] && e == es[|es| - 1]
    requires Looked(w.phase) ==> Listed(w.dead, w.pid) == Since(before, w.pid)
    ensures var r := Step(w, monitor, e);
            r.Some? && Looked(r.value.phase) ==> Listed(r.value.dead, r.value.pid) == Since(es, r.value.pid)
  {
    match e
    case Child(p, s) =>
      hide Drawn, Listed;
      if p > 0 { NoteListed(w.dead, p, s, w.pid); }
    case TryRip =>
      RippedGone(w.dead, w.pid, pids);
      hide Drawn;
    case Take =>
    case _ =>
  }

  lemma RippedGone(dead: seq<Entry>, p: int, pids: set<int>)
    requires Drawn(dead, pids)
    ensures Listed(Ripped(dead, p), p).None?
  {
    var r, i := Ripped(dead, p), Lookup(dead, p);
    if i < |dead| {
      forall k | 0 <= k < |r| ensures r[k] == dead[if k < i then k else k + 1] {}
    }
  }

  lemma TryRipLeads(w: Wait)
    ensures TryRipStep(w).phase.Empty? || TryRipStep(w).phase.Holding?
  {}

  // SIGINT was the last signal since `signal_received` was last looked at.
  predicate Unheeded(es: seq<Event>) {
    es != [] && !es[|es| - 1].Check? && (es[|es| - 1].Int? || (!es[|es| - 1].Child? && Unheeded(es[..|es| - 1])))
  }

  /** The waiter sleeps although SIGINT was the last signal if and only if it came after the look
      at `signal_received`, and before sigsuspend. */
  lemma {:induction false} SigintUnheeded(dead: seq<Entry>, job: Job, asked: int, sigint: bool, monitor: bool,
                                          es: seq<Event>)
    ensures var r := Run(Begin(dead, job, asked, sigint), monitor, es);
            r.Some? && (r.value.phase.Going? || r.value.phase.Asleep?) ==> (r.value.sigint <==> Unheeded(es))
    decreases |es|
  {
    hide Report, Note, FirstUnset, TryRipStep;
    if es != [] {
      SigintUnheeded(dead, job, asked, sigint, monitor, es[..|es| - 1]);
      var r := Run(Begin(dead, job, asked, sigint), monitor, es[..|es| - 1]);
      if r.Some? { TryRipLeads(r.value); }
    }
  }

  /** A sleeping waiter takes no step of its own, whatever is on the list. */
  lemma AsleepStays(w: Wait, monitor: bool, e: Event)
    requires w.phase.Asleep?
    ensures Step(w, monitor, e).Some? <==> e.Child? || e.Int?
  {}

  /** It happens: the process asked for terminates right after rip_dead has found nothing. The
      waiter goes to sleep all the same, with the termination on the list. */
  lemma MissedWakeUp(dead: seq<Entry>, job: Job, asked: int, s: Status, monitor: bool)
    requires Waitable(job, asked) && asked > 0 && |dead| < DEADLIST_MAX && Listed(dead, asked).None?
    ensures var r := Run(Begin(dead, job, asked, false), monitor, [TryRip, Child(asked, s), Check, Suspend]);
            r.Some? && r.value.phase.Asleep? && Listed(r.value.dead, r.value.pid) == Some(s)
  {
    var w := Begin(dead, job, asked, false);
    NoteListed(dead, asked, s, asked);
    hide Note, Listed, Waitable;
    RunFour(w, monitor, TryRip, Child(asked, s), Check, Suspend);
  }

  /** And so does SIGINT: right after the look at `signal_received` it does not end the wait. */
  lemma MissedSigint(dead: seq<Entry>, job: Job, asked: int, monitor: bool)
    requires Listed(dead, asked).None?
    ensures var r := Run(Begin(dead, job, asked, false), monitor, [TryRip, Check, Int, Suspend]);
            r.Some? && r.value.phase.Asleep? && r.value.sigint
  {
    var w := Begin(dead, job, asked, false);
    hide Listed;
    RunFour(w, monitor, TryRip, Check, Int, Suspend);
  }

  lemma RunFour(w: Wait, monitor: bool, a: Event, b: Event, c: Event, d: Event)
    requires Step(w, monitor, a).Some?
    requires var w1 := Step(w, monitor, a).value; Step(w1, monitor, b).Some?
    requires var w2 := Step(Step(w, monitor, a).value, monitor, b).value; Step(w2, monitor, c).Some?
    ensures var w2 := Step(Step(w, monitor, a).value, monitor, b).value;
            Run(w, monitor, [a, b, c, d]) == Step(Step(w2, monitor, c).value, monitor, d)
  {
    hide Step;
    assert [a, b, c, d][..3] == [a, b, c] && [a, b, c][..2] == [a, b] && [a, b][..1] == [a] && [a][..0] == [];
    assert Run(w, monitor, []) == Some(w);
    assert Run(w, monitor, [a]) == Step(w, monitor, a);
    assert Run(w, monitor, [a, b]) == Step(Step(w, monitor, a).value, monitor, b);
  }

  /* ----- what is delivered is kept ----- */

  predicate IsDeath(s: Option<Status>) { s.Some? && Terminated(s.value) }

  /** The bit of a process is set, or its termination is on the list or in the waiter's hands. */
  predicate Known(w: Wait, pid: int, i: nat) {
    i in w.job.bits || IsDeath(Listed(w.dead, pid)) || (w.phase.Holding? && w.pid == pid && Terminated(w.phase.s))
  }

  /** What is on the list is not kept when a stopped process is handed over: it is noted again
      as stopped. */
  predicate HandedStopped(w: Wait, pid: int, i: nat) { w.phase.Handed? && w.pid == pid && i !in w.job.bits }

  /** A termination that has been delivered is never lost, except that of a process that is
      handed over as stopped. */
  lemma {:induction false} NotLost(w: Wait, monitor: bool, es: seq<Event>, job: Job, i: nat, pids: set<int>)
    requires Inv(w, job) && w.phase.Ready? && i < |job.pids| && job.pids[i] > 0
    requires WellBehaved(es) && Few(w.dead, es, pids) && Run(w, monitor, es).Some? && Died(es, job.pids[i])
    ensures var w1 := Run(w, monitor, es).value; Known(w1, job.pids[i], i) || HandedStopped(w1, job.pids[i], i)
    decreases |es|
  {
    if es != [] {
      var before, e, q := es[..|es| - 1], es[|es| - 1], job.pids[i];
      forall k | 0 <= k < |before| ensures before[k] == es[k] {}
      assert es == before + [e];
      assert Few(w.dead, before, pids) && WellBehaved(before);
      hide Few, Inv, WellBehaved, Known, HandedStopped, Died, Step;
      RunKeeps(w, monitor, before, job);
      NeverFull(w, monitor, before, pids);
      if e.Child? && e.pid == q {
        DiedLast(before, e, q);
        NotedKnown(Run(w, monitor, before).value, monitor, e, i);
      } else {
        DiedBefore(before, e, q);
        NotLost(w, monitor, before, job, i, pids);
        StepKnown(Run(w, monitor, before).value, monitor, e, job, i);
      }
    }
  }

  lemma NotedKnown(w: Wait, monitor: bool, e: Event, i: nat)
    requires e.Child? && e.pid > 0 && Terminated(e.s) && |w.dead| < DEADLIST_MAX && Step(w, monitor, e).Some?
    ensures Known(Step(w, monitor, e).value, e.pid, i)
  {
    NoteListed(w.dead, e.pid, e.s, e.pid);
  }

  // A step that is no report of the process keeps what is known of it.
  lemma StepKnown(w: Wait, monitor: bool, e: Event, job: Job, i: nat)
    requires Inv(w, job) && i < |job.pids| && |w.dead| < DEADLIST_MAX && Step(w, monitor, e).Some?
    requires !(e.Child? && e.pid == job.pids[i])
    requires Known(w, job.pids[i], i) || HandedStopped(w, job.pids[i], i)
    ensures var w1 := Step(w, monitor, e).value; Known(w1, job.pids[i], i) || HandedStopped(w1, job.pids[i], i)
  {
    var q := job.pids[i];
    match e
    case Child(p, s) =>
      hide Inv, Note, Listed;
      if p > 0 { NoteListed(w.dead, p, s, q); } else { NoteNobody(w.dead, p, s); }
    case TryRip =>
      hide Inv, Ripped, Lookup;
      if w.pid != q { RippedListed(w.dead, w.pid, q); }
    case Take => TakeKnown(w, monitor, job, i);
    case _ => hide Inv;
  }

  lemma NoteNobody(dead: seq<Entry>, p: int, s: Status)
    requires p <= 0
    ensures Note(dead, p, s) == dead
  {}

  lemma TakeKnown(w: Wait, monitor: bool, job: Job, i: nat)
    requires Inv(w, job) && w.phase.Holding? && i < |job.pids| && |w.dead| < DEADLIST_MAX
    requires Known(w, job.pids[i], i)
    ensures var w1 := TakeStep(w, monitor); Known(w1, job.pids[i], i) || HandedStopped(w1, job.pids[i], i)
  {
    var q, s := job.pids[i], w.phase.s;
    TakeBit(w, monitor, job, i);
    hide Inv, Report, Note, FirstUnset, Listed;
    if w.pid > 0 { NoteListed(w.dead, w.pid, s, q); } else { NoteNobody(w.dead, w.pid, s); }
  }

  // A process that has died says so in its last report.
  lemma DiedLast(before: seq<Event>, e: Event, q: int)
    requires WellBehaved(before + [e]) && Died(before + [e], q) && e.Child? && e.pid == q
    ensures Terminated(e.s)
  {
    var es := before + [e];
    var k :| 0 <= k < |es| && es[k].Child? && es[k].pid == q && Terminated(es[k].s);
    assert es[|before|] == e;
  }

  lemma DiedBefore(before: seq<Event>, e: Event, q: int)
    requires Died(before + [e], q) && (e.Child? ==> e.pid != q)
    ensures Died(before, q)
  {
    var es := before + [e];
    var k :| 0 <= k < |es| && es[k].Child? && es[k].pid == q && Terminated(es[k].s);
    assert before[k] == es[k];
  }

  /** A process that is handed over as stopped loses its termination if and only if that came
      after the rip_dead that found it stopped. */
  lemma HandedLoses(dead: seq<Entry>, job: Job, asked: int, sigint: bool, monitor: bool, es: seq<Event>, i: nat,
                    pids: set<int>)
    requires Waitable(job, asked) && i < |job.pids| && job.pids[i] > 0 && WellBehaved(es) && Few(dead, es, pids)
    requires var r := Run(Begin(dead, job, asked, sigint), monitor, es);
             r.Some? && HandedStopped(r.value, job.pids[i], i)
    ensures var w := Run(Begin(dead, job, asked, sigint), monitor, es).value;
            && (Died(es, job.pids[i]) <==> IsDeath(Since(es, job.pids[i])))
            && !Known(w, job.pids[i], i)
  {
    hide Few, Known, WellBehaved, Inv, Died, TakeStep, TryRipStep, IsDeath, Waitable, Note, Drawn, Listed;
    BeginKeeps(dead, job, asked, sigint);
    assert es != [] by { NotHandedAtFirst(dead, job, asked, sigint, monitor, job.pids[i], i); }
    var w0, before, e, q := Begin(dead, job, asked, sigint), es[..|es| - 1], es[|es| - 1], job.pids[i];
    assert es == before + [e];
    BeforeLast(dead, before, e, pids);
    RunKeeps(w0, monitor, before, job);
    NeverFull(w0, monitor, before, pids);
    ListedSince(dead, job, asked, sigint, monitor, before, pids);
    var w1 := Run(w0, monitor, before).value;
    hide HandedStopped;
    HandedFrom(w1, monitor, e, job, i);
    if Died(es, q) {
      DiedBefore(before, e, q);
      NotLost(w0, monitor, before, job, i, pids);
    }
    if IsDeath(Since(es, q)) { SinceDied(es, q); }
  }

  lemma NotHandedAtFirst(dead: seq<Entry>, job: Job, asked: int, sigint: bool, monitor: bool, pid: int, i: nat)
    ensures var r := Run(Begin(dead, job, asked, sigint), monitor, []);
            r.Some? && !HandedStopped(r.value, pid, i)
  {}

  lemma BeforeLast(dead: seq<Entry>, before: seq<Event>, e: Event, pids: set<int>)
    requires Few(dead, before + [e], pids) && WellBehaved(before + [e])
    ensures Few(dead, before, pids) && WellBehaved(before)
  {
    var es := before + [e];
    assert forall k :: 0 <= k < |before| ==> before[k] == es[k];
    hide Drawn;
  }

  /** What takes the wait out by this way: under job control a process that was stopped or killed. */
  lemma HandedWhen(w: Wait, monitor: bool)
    requires w.phase.Holding?
    ensures TakeStep(w, monitor).phase.Handed? <==> monitor && (w.phase.s.Stopped? || w.phase.s.Signaled?)
  {
    hide Report, Note, FirstUnset;
  }

  // The step that hands a stopped process over.
  lemma HandedFrom(w: Wait, monitor: bool, e: Event, job: Job, i: nat)
    requires Inv(w, job) && i < |job.pids| && job.pids[i] > 0 && |w.dead| < DEADLIST_MAX
    requires Step(w, monitor, e).Some? && HandedStopped(Step(w, monitor, e).value, job.pids[i], i)
    ensures e.Take? && w.phase.Holding? && w.pid == job.pids[i] && !HandedStopped(w, job.pids[i], i)
    ensures Known(w, job.pids[i], i) <==> IsDeath(Listed(w.dead, job.pids[i]))
    ensures !Known(Step(w, monitor, e).value, job.pids[i], i)
  {
    hide Inv, Report, FirstUnset, Note, Listed;
    if e.Take? && w.phase.Holding? {
      TakeBit(w, monitor, job, i);
      NoteListed(w.dead, job.pids[i], w.phase.s, job.pids[i]);
    }
  }

  /** It happens: under job control the process asked for is stopped, and terminates right after
      rip_dead has found it stopped. The list then says that it is stopped, and no bit that it
      has terminated. */
  lemma StopHidesDeath(dead: seq<Entry>, job: Job, asked: int, sig: int, s: Status, pids: set<int>)
    requires Waitable(job, asked) && asked > 0 && asked in pids && |pids| < DEADLIST_MAX && Drawn(dead, pids)
    ensures var es := [Child(asked, Stopped(sig)), TryRip, Child(asked, s), Take];
            var r := Run(Begin(dead, job, asked, false), true, es);
            r.Some? && HandedStopped(r.value, asked, Find(job.pids, asked))
              && Listed(r.value.dead, asked) == Some(Stopped(sig))
  {
    var w := Begin(dead, job, asked, false);
    DrawnSize(dead, pids);
    NoteListed(dead, asked, Stopped(sig), asked);
    var noted := Note(dead, asked, Stopped(sig));
    NoteDrawn(dead, asked, Stopped(sig), pids);
    RippedDrawn(noted, asked, pids);
    var ripped := Ripped(noted, asked);
    DrawnSize(ripped, pids);
    NoteDrawn(ripped, asked, s, pids);
    DrawnSize(Note(ripped, asked, s), pids);
    NoteListed(Note(ripped, asked, s), asked, Stopped(sig), asked);
    hide Note, Ripped, Listed, Drawn, CountBits, Find;
    RunFour(w, true, Child(asked, Stopped(sig)), TryRip, Child(asked, s), Take);
  }

  lemma {:induction false} SinceDied(es: seq<Event>, q: int)
    requires IsDeath(Since(es, q))
    ensures Died(es, q)
    decreases |es|
  {
    var before, e := es[..|es| - 1], es[|es| - 1];
    if !(e.Child? && e.pid == q && e.pid > 0) {
      SinceDied(before, q);
      var k :| 0 <= k < |before| && before[k].Child? && before[k].pid == q && Terminated(before[k].s);
      assert es[k] == before[k];
    }
  }

  /* ----- the end of the wait ----- */

  // What the waiter does next when no signal comes.
  function Own(p: Phase): Event {
    match p
    case Holding(_) => Take
    case Empty => Check
    case Going => Suspend
    case _ => TryRip
  }

  /** The waiter returns within n steps of its own, without any signal. */
  predicate ReturnsIn(w: Wait, monitor: bool, n: nat)
    decreases n
  {
    || w.phase.Finished? || w.phase.Handed?
    || (n > 0 && var r := Step(w, monitor, Own(w.phase)); r.Some? && ReturnsIn(r.value, monitor, n - 1))
  }

  lemma {:induction false} ReturnsLater(w: Wait, monitor: bool, n: nat, m: nat)
    requires ReturnsIn(w, monitor, n) && n <= m
    ensures ReturnsIn(w, monitor, m)
    decreases n
  {
    hide Step;
    if !w.phase.Finished? && !w.phase.Handed? {
      ReturnsLater(Step(w, monitor, Own(w.phase)).value, monitor, n - 1, m - 1);
    }
  }

  ghost predicate AllKnown(w: Wait, job: Job) { forall i :: 0 <= i < |job.pids| ==> Known(w, job.pids[i], i) }

  lemma TakeLeads(w: Wait, monitor: bool)
    requires w.phase.Holding?
    ensures var w1 := TakeStep(w, monitor);
            w1.phase.Finished? || w1.phase.Handed? || (w1.phase.Ready? && w1.dead == w.dead)
  {
    hide Report, Note, FirstUnset;
  }

  // Taking a status of a process that is known leads out, or to a state with no more to wait for.
  lemma TakeOn(w: Wait, monitor: bool, job: Job)
    requires Inv(w, job) && w.phase.Holding? && |w.dead| < DEADLIST_MAX && AllKnown(w, job)
    ensures var w1 := TakeStep(w, monitor);
            && Inv(w1, job) && Unset(w1.job) <= Unset(w.job)
            && (Terminated(w.phase.s) ==> |Unset(w1.job)| == |Unset(w.job)| - 1)
            && (w1.phase.Finished? || w1.phase.Handed? || (w1.phase.Ready? && w1.dead == w.dead && AllKnown(w1, job)))
  {
    var w1 := TakeStep(w, monitor);
    TakeShrinks(w, monitor, job);
    TakeKeeps(w, monitor, job);
    forall i | 0 <= i < |job.pids| ensures Known(w1, job.pids[i], i) || HandedStopped(w1, job.pids[i], i) {
      TakeKnown(w, monitor, job, i);
    }
    TakeLeads(w, monitor);
    hide Inv, Known, Unset, TakeStep;
  }

  // rip_dead finds the termination of the process waited for.
  lemma RipFinds(w: Wait, job: Job, monitor: bool)
    requires Inv(w, job) && w.phase.Ready? && |w.dead| < DEADLIST_MAX && AllKnown(w, job)
    ensures var w1 := TryRipStep(w);
            && Inv(w1, job) && w1.job == w.job && |w1.dead| < DEADLIST_MAX && AllKnown(w1, job)
            && w1.phase.Holding? && Terminated(w1.phase.s)
  {
    var w1, i := TryRipStep(w), Find(job.pids, w.pid);
    assert Known(w, job.pids[i], i);
    StepKeeps(w, monitor, TryRip, job);
    forall k | 0 <= k < |job.pids| ensures Known(w1, job.pids[k], k) { StepKnown(w, monitor, TryRip, job, k); }
    hide Inv;
  }

  lemma {:induction false} KnownReturns(w: Wait, monitor: bool, job: Job)
    requires Inv(w, job) && w.phase.Ready? && |w.dead| < DEADLIST_MAX && AllKnown(w, job)
    ensures ReturnsIn(w, monitor, 2 * |Unset(w.job)|)
    decreases |Unset(w.job)|
  {
    hide Inv, AllKnown, Unset, TryRipStep, TakeStep, Note, Known;
    RipFinds(w, job, monitor);
    var w1 := TryRipStep(w);
    TakeOn(w1, monitor, job);
    var w2, n := TakeStep(w1, monitor), |Unset(w.job)|;
    assert n == |Unset(w2.job)| + 1;
    if w2.phase.Ready? { KnownReturns(w2, monitor, job); }
    assert ReturnsIn(w2, monitor, 2 * n - 2);
    assert ReturnsIn(w1, monitor, 2 * n - 1);
  }

  // The same from where a status has been taken off the list.
  lemma HoldingReturns(w: Wait, monitor: bool, job: Job)
    requires Inv(w, job) && w.phase.Holding? && |w.dead| < DEADLIST_MAX && AllKnown(w, job)
    ensures ReturnsIn(w, monitor, 2 * |Unset(w.job)| + 1)
  {
    hide Inv, AllKnown, Unset, TakeStep, TryRipStep, Note, Known;
    TakeOn(w, monitor, job);
    var w1, n := TakeStep(w, monitor), |Unset(w.job)|;
    if w1.phase.Ready? {
      KnownReturns(w1, monitor, job);
      FewerUnset(w1.job, w.job);
      ReturnsLater(w1, monitor, 2 * |Unset(w1.job)|, 2 * n);
    }
  }

  lemma FewerUnset(j: Job, k: Job)
    requires Unset(j) <= Unset(k)
    ensures |Unset(j)| <= |Unset(k)|
  {
    hide Unset;
    assert Unset(k) == Unset(j) + (Unset(k) - Unset(j));
  }

  // Without a signal there is no way on from a rip_dead that has found nothing.
  lemma {:induction false} NoReturn(w: Wait, monitor: bool, n: nat)
    requires w.phase.Empty? || w.phase.Going? || w.phase.Asleep? || w.phase.Interrupted?
    ensures !ReturnsIn(w, monitor, n)
    decreases n
  {
    if n > 0 {
      var r := Step(w, monitor, Own(w.phase));
      if r.Some? { NoReturn(r.value, monitor, n - 1); }
    }
  }

  /** Once the termination of every process has been delivered, in any order and mixed with any
      other reports, the waiter returns by itself, with two steps for each process, unless the
      last rip_dead has found nothing; and then a report of the process waited for has come
      since. */
  lemma NeverStuck(dead: seq<Entry>, job: Job, asked: int, sigint: bool, monitor: bool, es: seq<Event>, pids: set<int>)
    requires Waitable(job, asked) && forall i :: 0 <= i < |job.pids| ==> job.pids[i] > 0
    requires WellBehaved(es) && Few(dead, es, pids) && forall i :: 0 <= i < |job.pids| ==> Died(es, job.pids[i])
    requires var r := Run(Begin(dead, job, asked, sigint), monitor, es); r.Some? && Open(r.value.phase)
    ensures var w := Run(Begin(dead, job, asked, sigint), monitor, es).value;
            && (ReturnsIn(w, monitor, 2 * |Unset(w.job)| + 1) <==> w.phase.Ready? || w.phase.Holding?)
            && (Since(es, w.pid).None? ==> w.phase.Ready? || w.phase.Holding?)
  {
    hide *;
    DeliveredKnown(dead, job, asked, sigint, monitor, es, pids);
    ListedSince(dead, job, asked, sigint, monitor, es, pids);
    var w := Run(Begin(dead, job, asked, sigint), monitor, es).value;
    KnownEnds(w, monitor, job);
    LookedOpen(w.phase);
  }

  lemma LookedOpen(p: Phase)
    ensures Looked(p) || p.Ready? || !Open(p)
  {}

  lemma DeliveredKnown(dead: seq<Entry>, job: Job, asked: int, sigint: bool, monitor: bool, es: seq<Event>,
                       pids: set<int>)
    requires Waitable(job, asked) && forall i :: 0 <= i < |job.pids| ==> job.pids[i] > 0
    requires WellBehaved(es) && Few(dead, es, pids) && forall i :: 0 <= i < |job.pids| ==> Died(es, job.pids[i])
    requires var r := Run(Begin(dead, job, asked, sigint), monitor, es); r.Some? && Open(r.value.phase)
    ensures var w := Run(Begin(dead, job, asked, sigint), monitor, es).value;
            Inv(w, job) && |w.dead| < DEADLIST_MAX && AllKnown(w, job)
  {
    var w0 := Begin(dead, job, asked, sigint);
    BeginKeeps(dead, job, asked, sigint);
    hide Inv, Known, Few, Died, WellBehaved, Waitable, Run;
    RunKeeps(w0, monitor, es, job);
    NeverFull(w0, monitor, es, pids);
    var w := Run(w0, monitor, es).value;
    hide Drawn;
    forall i | 0 <= i < |job.pids| ensures Known(w, job.pids[i], i) { NotLost(w0, monitor, es, job, i, pids); }
  }

  lemma BeginKeeps(dead: seq<Entry>, job: Job, asked: int, sigint: bool)
    requires Waitable(job, asked)
    ensures Inv(Begin(dead, job, asked, sigint), job)
  {
    hide Valid;
  }

  lemma KnownEnds(w: Wait, monitor: bool, job: Job)
    requires Inv(w, job) && Open(w.phase) && |w.dead| < DEADLIST_MAX && AllKnown(w, job)
    ensures ReturnsIn(w, monitor, 2 * |Unset(w.job)| + 1) <==> w.phase.Ready? || w.phase.Holding?
    ensures Listed(w.dead, w.pid).None? ==> w.phase.Ready? || w.phase.Holding?
  {
    var i := Find(job.pids, w.pid);
    assert Known(w, job.pids[i], i);
    hide Inv, AllKnown, Unset, TryRipStep, TakeStep, Listed, Step, ReturnsIn;
    if w.phase.Ready? {
      KnownReturns(w, monitor, job);
      ReturnsLater(w, monitor, 2 * |Unset(w.job)|, 2 * |Unset(w.job)| + 1);
    } else if w.phase.Holding? {
      HoldingReturns(w, monitor, job);
    } else {
      NoReturn(w, monitor, 2 * |Unset(w.job)| + 1);
    }
  }
}
