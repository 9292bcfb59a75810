/** wait_on_child, rip_dead and notice_termination as they run, on the fixed dead list. */
module WaitLoop {
  import opened Basics
  import opened Processes
  import W = Waiting

  // What is handled: a child's report or SIGINT.
  datatype Signal = Chld(pid: int, s: Status) | Int

  const NOBODY := W.Entry(0, Exited(0))

  class DeadList {
    const entries: array<W.Entry>
    var listindex: nat

    ghost predicate Valid()
      reads this
    {
      entries.Length == W.DEADLIST_MAX && listindex <= W.DEADLIST_MAX
    }

    ghost function Dead(): seq<W.Entry>
      reads this, entries
      requires Valid()
    {
      entries[..listindex]
    }

    constructor ()
      ensures Valid() && Dead() == [] && fresh(entries)
    {
      entries := new W.Entry[W.DEADLIST_MAX](_ => NOBODY);
      listindex := 0;
    }

    // The search both functions begin with.
    method Position(pid: int) returns (i: nat)
      requires Valid()
      ensures i == W.Lookup(Dead(), pid)
    {
      i := 0;
      while i < listindex && entries[i].pid != pid
        invariant i <= W.Lookup(Dead(), pid)
      {
        assert Dead()[i] == entries[i];
        i := i + 1;
      }
      if i < listindex { assert Dead()[i] == entries[i]; }
    }

    // The dead list part of notice_termination.
    method NoticeTermination(pid: int, status: Status)
      requires Valid()
      modifies this, entries
      ensures Valid() && Dead() == W.Note(old(Dead()), pid, status)
    {
      if pid <= 0 { return; }
      var i := Position(pid);
      if i < listindex {
        entries[i] := W.Entry(pid, status);
      } else if listindex < W.DEADLIST_MAX {
        entries[listindex] := W.Entry(pid, status);
        listindex := listindex + 1;
      }
    }

    // The shifting loop of rip_dead.
    method ShiftDown(at: nat)
      requires Valid() && at < listindex < W.DEADLIST_MAX
      modifies entries
      ensures entries[..listindex - 1] == old(entries[..at]) + old(entries[at + 1..listindex])
    {
      ghost var d := entries[..];
      var i := at;
      while i < listindex
        invariant at <= i <= listindex
        invariant entries[..i] == d[..at] + d[at + 1..i + 1]
        invariant entries[i + 1..] == d[i + 1..]
      {
        assert entries[i + 1] == entries[i + 1..][0] == d[i + 1];
        entries[i] := entries[i + 1];
        i := i + 1;
        assert d[at + 1..i + 1] == d[at + 1..i] + [d[i]];
        assert entries[..i] == entries[..i - 1] + [d[i]];
      }
      assert entries[..listindex - 1] == entries[..listindex][..listindex - 1];
    }

    /** rip_dead; a full list is left out, because the shift would read one entry beyond it. */
    method RipDead(pid: int) returns (r: Option<Status>)
      requires Valid() && listindex < W.DEADLIST_MAX
      modifies this, entries
      ensures Valid() && listindex <= old(listindex)
      ensures r == W.Listed(old(Dead()), pid)
      ensures Dead() == W.Ripped(old(Dead()), pid)
    {
      if listindex == 0 { return None; }
      var at := Position(pid);
      if at == listindex { return None; }
      r := Some(entries[at].status);
      ghost var d := Dead();
      ShiftDown(at);
      entries[listindex] := NOBODY;
      assert entries[..listindex - 1] == d[..at] + d[at + 1..];
      listindex := listindex - 1;
    }
  }

  /* ----- wait_on_child ----- */

  // Returned is the normal way out. Blocked stands for a sigsuspend that no further signal ends.
  datatype Reply = Returned(res: Option<Status>) | HandedOver(res: Option<Status>) | Aborted | Blocked

  // How the method may come back from a run that has ended in w.
  ghost predicate Answers(r: Reply, w: W.Wait) {
    match w.phase
    case Finished => r == Returned(w.res)
    case Handed => r == HandedOver(w.res)
    case Interrupted => r == Aborted
    case Asleep => r == Blocked
    case _ => false
  }

  // Every report is of one of these processes.
  predicate Spoken(batch: seq<Signal>, pids: set<int>) {
    forall i :: 0 <= i < |batch| && batch[i].Chld? ==> batch[i].pid in pids
  }

  lemma RunSnoc(w: W.Wait, monitor: bool, es: seq<W.Event>, e: W.Event)
    requires W.Run(w, monitor, es).Some?
    ensures W.Run(w, monitor, es + [e]) == W.Step(W.Run(w, monitor, es).value, monitor, e)
  {
    assert (es + [e])[..|es|] == es;
  }

  // The loop over the members of the job that looks for one still waited on.
  method NextUnset(job: JobCell) returns (i: nat)
    requires job.Ok()
    ensures i == W.FirstUnset(job.Value(), 0)
  {
    i := 0;
    while i < job.procCount && i in job.childExitbits
      invariant i <= job.procCount
      invariant W.FirstUnset(job.Value(), 0) == W.FirstUnset(job.Value(), i)
    {
      i := i + 1;
    }
  }

  /* ----- which signals a run has handled ----- */

  function SignalOf(e: W.Event): seq<Signal> {
    match e
    case Child(p, s) => [Chld(p, s)]
    case Int => [Int]
    case _ => []
  }

  function Heard(es: seq<W.Event>): seq<Signal> {
    if es == [] then [] else Heard(es[..|es| - 1]) + SignalOf(es[|es| - 1])
  }

  function Flat(batches: seq<seq<Signal>>): seq<Signal> {
    if batches == [] then [] else Flat(batches[..|batches| - 1]) + batches[|batches| - 1]
  }

  lemma HeardSnoc(es: seq<W.Event>, e: W.Event)
    ensures Heard(es + [e]) == Heard(es) + SignalOf(e)
  {
    assert (es + [e])[..|es|] == es;
  }

  // The run so far of the machine that began in w0.
  ghost predicate Recorded(w0: W.Wait, monitor: bool, es: seq<W.Event>, w: W.Wait, pids: set<int>) {
    w0.phase.Ready? && W.Run(w0, monitor, es) == Some(w) && W.Few(w0.dead, es, pids)
  }

  // One more event.
  ghost method Record(w0: W.Wait, monitor: bool, es: seq<W.Event>, w: W.Wait, e: W.Event, pids: set<int>)
    returns (es1: seq<W.Event>, w1: W.Wait)
    requires Recorded(w0, monitor, es, w, pids) && W.Step(w, monitor, e).Some? && (e.Child? ==> e.pid in pids)
    ensures Recorded(w0, monitor, es1, w1, pids) && Some(w1) == W.Step(w, monitor, e)
    ensures Heard(es1) == Heard(es) + SignalOf(e)
  {
    HeardSnoc(es, e);
    hide W.Step, W.Drawn;
    RunSnoc(w0, monitor, es, e);
    es1, w1 := es + [e], W.Step(w, monitor, e).value;
  }

  lemma RoomLeft(w0: W.Wait, monitor: bool, es: seq<W.Event>, w: W.Wait, pids: set<int>)
    requires Recorded(w0, monitor, es, w, pids)
    ensures |w.dead| < W.DEADLIST_MAX
  {
    W.NeverFull(w0, monitor, es, pids);
  }

  lemma NothingRecorded(w0: W.Wait, monitor: bool, pids: set<int>)
    requires w0.phase.Ready? && |pids| < 32 && W.Drawn(w0.dead, pids)
    ensures Recorded(w0, monitor, [], w0, pids)
  {}

  lemma RecordedRun(w0: W.Wait, monitor: bool, es: seq<W.Event>, w: W.Wait, pids: set<int>)
    requires Recorded(w0, monitor, es, w, pids)
    ensures W.Run(w0, monitor, es) == Some(w) && W.Few(w0.dead, es, pids)
  {}

  lemma BlockedSince(w0: W.Wait, monitor: bool, es: seq<W.Event>, w: W.Wait, pids: set<int>, reply: Reply)
    requires Recorded(w0, monitor, es, w, pids) && w0 == W.Begin(w0.dead, w0.job, w0.asked, w0.sigint)
    requires Answers(reply, w)
    ensures reply.Blocked? ==> W.Listed(w.dead, w.pid) == W.Since(es, w.pid)
  {
    W.ListedSince(w0.dead, w0.job, w0.asked, w0.sigint, monitor, es, pids);
  }

  /** The handlers of the signals that come at one place; the last one decides what
      `signal_received` is. w is the state before, w1 the one after. */
  method Deliver(list: DeadList, batch: seq<Signal>, sigint: bool, ghost w0: W.Wait, monitor: bool,
                 ghost es: seq<W.Event>, ghost w: W.Wait, ghost pids: set<int>)
    returns (sigint1: bool, ghost es1: seq<W.Event>, ghost w1: W.Wait)
    requires list.Valid() && list.Dead() == w.dead && w.sigint == sigint && W.Open(w.phase)
    requires Recorded(w0, monitor, es, w, pids) && Spoken(batch, pids)
    modifies list, list.entries
    ensures list.Valid() && Recorded(w0, monitor, es1, w1, pids)
    ensures w1 == w.(dead := list.Dead(), sigint := sigint1, phase := if batch == [] then w.phase else W.Woken(w.phase))
    ensures Heard(es1) == Heard(es) + batch
    ensures batch == [] ==> list.listindex == old(list.listindex)
  {
    hide W.Note, Recorded, Heard;
    sigint1, es1, w1 := sigint, es, w;
    for i := 0 to |batch|
      invariant list.Valid() && Recorded(w0, monitor, es1, w1, pids)
      invariant w1 == w.(dead := list.Dead(), sigint := sigint1, phase := if i == 0 then w.phase else W.Woken(w.phase))
      invariant Heard(es1) == Heard(es) + batch[..i]
      invariant i == 0 ==> list.listindex == old(list.listindex)
    {
      assert batch[..i + 1] == batch[..i] + [batch[i]];
      match batch[i]
      case Chld(p, s) =>
        list.NoticeTermination(p, s);
        sigint1 := false;
        es1, w1 := Record(w0, monitor, es1, w1, W.Child(p, s), pids);
      case Int =>
        sigint1 := true;
        es1, w1 := Record(w0, monitor, es1, w1, W.Int, pids);
    }
    assert batch[..|batch|] == batch;
  }

  // The k-th batch; none when there are no more signals.
  function Batch(script: seq<seq<Signal>>, k: nat): seq<Signal> { if k < |script| then script[k] else [] }

  function Next(script: seq<seq<Signal>>, k: nat): nat { if k < |script| then k + 1 else k }

  // A batch more has been consumed.
  lemma FlatNext(script: seq<seq<Signal>>, k: nat)
    requires k <= |script|
    ensures Flat(script[..Next(script, k)]) == Flat(script[..k]) + Batch(script, k)
  {
    if k < |script| { assert script[..k + 1][..k] == script[..k]; }
  }

  predicate AllSpoken(script: seq<seq<Signal>>, pids: set<int>) {
    forall i :: 0 <= i < |script| ==> Spoken(script[i], pids)
  }

  lemma BatchSpoken(script: seq<seq<Signal>>, k: nat, pids: set<int>)
    requires AllSpoken(script, pids)
    ensures Spoken(Batch(script, k), pids)
  {}

  // The first k batches of script are what has been handled.
  predicate Consumed(es: seq<W.Event>, script: seq<seq<Signal>>, k: nat) {
    k <= |script| && Heard(es) == Flat(script[..k])
  }

  // The signals at the next place.
  method DeliverNext(list: DeadList, script: seq<seq<Signal>>, k: nat, sigint: bool, ghost w0: W.Wait, monitor: bool,
                     ghost es: seq<W.Event>, ghost w: W.Wait, ghost pids: set<int>)
    returns (k1: nat, sigint1: bool, ghost es1: seq<W.Event>, ghost w1: W.Wait)
    requires list.Valid() && list.Dead() == w.dead && w.sigint == sigint && W.Open(w.phase)
    requires Recorded(w0, monitor, es, w, pids) && AllSpoken(script, pids) && Consumed(es, script, k)
    modifies list, list.entries
    ensures list.Valid() && Recorded(w0, monitor, es1, w1, pids) && Consumed(es1, script, k1)
    ensures k1 == Next(script, k)
    ensures w1 == w.(dead := list.Dead(), sigint := sigint1,
                     phase := if Batch(script, k) == [] then w.phase else W.Woken(w.phase))
    ensures k == |script| ==> list.listindex == old(list.listindex)
  {
    hide Recorded, Heard, Flat, Spoken;
    BatchSpoken(script, k, pids);
    sigint1, es1, w1 := Deliver(list, Batch(script, k), sigint, w0, monitor, es, w, pids);
    FlatNext(script, k);
    k1 := Next(script, k);
  }

  lemma RecordedStep(es: seq<W.Event>, es1: seq<W.Event>, script: seq<seq<Signal>>, k: nat)
    requires Consumed(es, script, k) && Heard(es1) == Heard(es) + []
    ensures Consumed(es1, script, k)
  {}

  // sigsuspend sleeps until there is a signal.
  method NextSome(script: seq<seq<Signal>>, k: nat, ghost es: seq<W.Event>) returns (k1: nat)
    requires Consumed(es, script, k)
    ensures k <= k1 <= |script| && Consumed(es, script, k1)
    ensures k1 < |script| ==> script[k1] != []
  {
    hide Flat, Heard;
    k1 := k;
    while k1 < |script| && script[k1] == []
      invariant k <= k1 && Consumed(es, script, k1)
    {
      FlatNext(script, k1);
      k1 := k1 + 1;
    }
  }

  /** The body of the loop around rip_dead, which has found nothing: the look at
      `signal_received` and sigsuspend. */
  method Pause(list: DeadList, script: seq<seq<Signal>>, k: nat, sigint: bool, ghost w0: W.Wait, monitor: bool,
               ghost es: seq<W.Event>, ghost w: W.Wait, ghost pids: set<int>)
    returns (reply: Option<Reply>, k1: nat, sigint1: bool, ghost es1: seq<W.Event>, ghost w1: W.Wait)
    requires list.Valid() && list.Dead() == w.dead && w.sigint == sigint && w.phase.Empty? && k <= |script|
    requires Recorded(w0, monitor, es, w, pids) && AllSpoken(script, pids) && Consumed(es, script, k)
    modifies list, list.entries
    ensures list.Valid() && Recorded(w0, monitor, es1, w1, pids) && Consumed(es1, script, k1)
    ensures k <= k1 <= |script|
    ensures w1 == w.(dead := list.Dead(), sigint := sigint1, phase := w1.phase)
    ensures reply == Some(Blocked) ==> k1 == |script|
    ensures if reply.Some? then Answers(reply.value, w1) else w1.phase.Ready? && k < k1
  {
    hide Recorded, AllSpoken, Consumed, Heard;
    k1, sigint1, es1, w1 := DeliverNext(list, script, k, sigint, w0, monitor, es, w, pids);
    ghost var es2 := es1;
    es1, w1 := Record(w0, monitor, es1, w1, W.Check, pids);
    RecordedStep(es2, es1, script, k1);
    if sigint1 { return Some(Aborted), k1, sigint1, es1, w1; }
    k1, sigint1, es1, w1 := DeliverNext(list, script, k1, sigint1, w0, monitor, es1, w1, pids);
    es2 := es1;
    es1, w1 := Record(w0, monitor, es1, w1, W.Suspend, pids);
    RecordedStep(es2, es1, script, k1);
    k1 := NextSome(script, k1, es1);
    if k1 == |script| { return Some(Blocked), k1, sigint1, es1, w1; }
    k1, sigint1, es1, w1 := DeliverNext(list, script, k1, sigint1, w0, monitor, es1, w1, pids);
    return None, k1, sigint1, es1, w1;
  }

  /** rip_dead, and what comes before it. */
  method Reap(list: DeadList, script: seq<seq<Signal>>, k: nat, pid: int, sigint: bool, ghost w0: W.Wait,
              monitor: bool, ghost es: seq<W.Event>, ghost w: W.Wait, ghost pids: set<int>)
    returns (s: Option<Status>, k1: nat, sigint1: bool, ghost es1: seq<W.Event>, ghost w1: W.Wait)
    requires list.Valid() && list.Dead() == w.dead && w.sigint == sigint && w.phase.Ready? && w.pid == pid
    requires Recorded(w0, monitor, es, w, pids) && AllSpoken(script, pids) && Consumed(es, script, k)
    modifies list, list.entries
    ensures list.Valid() && Recorded(w0, monitor, es1, w1, pids) && Consumed(es1, script, k1) && k1 == Next(script, k)
    ensures w1 == w.(dead := list.Dead(), sigint := sigint1, phase := if s.Some? then W.Holding(s.value) else W.Empty)
    ensures k == |script| && s.Some? ==> list.listindex < old(list.listindex)
  {
    hide Recorded, AllSpoken, Consumed, Heard, W.Listed, W.Ripped, W.TryRipStep;
    k1, sigint1, es1, w1 := DeliverNext(list, script, k, sigint, w0, monitor, es, w, pids);
    RoomLeft(w0, monitor, es1, w1, pids);
    s := list.RipDead(pid);
    TryRipIs(w1, s);
    ghost var es2 := es1;
    es1, w1 := Record(w0, monitor, es1, w1, W.TryRip, pids);
    RecordedStep(es2, es1, script, k1);
  }

  /** What comes after a rip_dead that has found a status, and what is made of it. */
  method Account(list: DeadList, job: JobCell, script: seq<seq<Signal>>, k: nat, pid: int, asked: int, s: Status,
                 res: Option<Status>, sigint: bool, ghost w0: W.Wait, monitor: bool, ghost es: seq<W.Event>,
                 ghost w: W.Wait, ghost pids: set<int>)
    returns (done: Option<Reply>, pid1: int, k1: nat, sigint1: bool, ghost es1: seq<W.Event>, ghost w1: W.Wait)
    requires list.Valid() && job.Ok() && w.phase == W.Holding(s) && w.pid == pid && w.asked == asked
    requires list.Dead() == w.dead && job.Value() == w.job && w.sigint == sigint
    requires res == if pid == asked then Some(s) else w.res
    requires Recorded(w0, monitor, es, w, pids) && AllSpoken(script, pids) && Consumed(es, script, k)
    modifies list, list.entries, job, job.exitCodes
    ensures list.Valid() && job.Ok() && Recorded(w0, monitor, es1, w1, pids)
    ensures Consumed(es1, script, k1) && k1 == Next(script, k)
    ensures w1 == W.Wait(list.Dead(), job.Value(), w1.pid, asked, res, sigint1, w1.phase)
    ensures if done.None? then w1.phase.Ready? && w1.pid == pid1 else Answers(done.value, w1) && !done.value.Blocked?
    ensures k == |script| && done.None? ==> list.listindex == old(list.listindex)
  {
    hide Recorded, AllSpoken, Consumed, Heard, W.TakeStep, Valid;
    k1, sigint1, es1, w1 := DeliverNext(list, script, k, sigint, w0, monitor, es, w, pids);
    done, pid1 := TakeStatus(list, job, pid, asked, s, res, monitor, w1);
    ghost var es2 := es1;
    es1, w1 := Record(w0, monitor, es1, w1, W.Take, pids);
    RecordedStep(es2, es1, script, k1);
  }

  /** Every execution is a run of the machine, and its reply is the machine's: whatever the
      signals, their number and their order, and wherever they come: before rip_dead, after one
      that has found nothing or something, right before sigsuspend, or within it. A batch of
      script stands for the signals at one of these places, an empty one for none. The wait is
      Blocked when no signal ends the last sigsuspend; the list then has exactly what came of the
      process waited for since rip_dead. The reports and SIGINTs of the run are those of the first
      batches of script, in order, and of all of them when the wait is Blocked. The list begins
      with one entry a process, and it and the reports are of fewer processes than it has room
      for; so it never fills. */
  method WaitOnChild(list: DeadList, job: JobCell, asked: int, monitor: bool, sigint0: bool,
                     script: seq<seq<Signal>>, ghost pids: set<int>)
    returns (reply: Reply, ghost es: seq<W.Event>, ghost w: W.Wait, ghost used: nat)
    requires list.Valid() && job.Ok() && W.Waitable(job.Value(), asked)
    requires |pids| < 32 && W.Drawn(list.Dead(), pids)
    requires forall k :: 0 <= k < |script| ==> Spoken(script[k], pids)
    modifies list, list.entries, job, job.exitCodes
    ensures list.Valid() && job.Ok() && W.Few(old(list.Dead()), es, pids)
    ensures W.Run(W.Begin(old(list.Dead()), old(job.Value()), asked, sigint0), monitor, es) == Some(w)
    ensures w.dead == list.Dead() && w.job == job.Value() && Answers(reply, w)
    ensures reply.Blocked? ==> W.Listed(list.Dead(), w.pid) == W.Since(es, w.pid)
    ensures used <= |script| && Heard(es) == Flat(script[..used]) && (reply.Blocked? ==> used == |script|)
  {
    hide W.Ripped, W.Note, W.Lookup, W.Run, W.TakeStep, W.TryRipStep, W.Listed, Valid, W.Drawn, W.Few, Spoken, W.Since;
    hide Recorded, Answers, W.Waitable, Heard, Flat, Consumed;
    ghost var w0 := W.Begin(list.Dead(), job.Value(), asked, sigint0);
    NothingRecorded(w0, monitor, pids);
    NoneHeard(script);
    var pid, res, k, sigint := asked, None, 0, sigint0;
    es, w, used := [], w0, 0;
    while true
      invariant list.Valid() && job.Ok() && Consumed(es, script, k)
      invariant w == W.Wait(list.Dead(), job.Value(), pid, asked, res, sigint, W.Ready)
      invariant Recorded(w0, monitor, es, w, pids) && k <= |script|
      decreases |script| - k, list.listindex
    {
      var s, r;
      s, k, sigint, es, w := Reap(list, script, k, pid, sigint, w0, monitor, es, w, pids);
      if s.None? {
        r, k, sigint, es, w := Pause(list, script, k, sigint, w0, monitor, es, w, pids);
      } else {
        if pid == asked { res := s; }
        r, pid, k, sigint, es, w :=
          Account(list, job, script, k, pid, asked, s.value, res, sigint, w0, monitor, es, w, pids);
      }
      InScript(es, script, k);
      if r.Some? {
        RecordedRun(w0, monitor, es, w, pids);
        BlockedSince(w0, monitor, es, w, pids, r.value);
        return r.value, es, w, k;
      }
    }
  }

  lemma InScript(es: seq<W.Event>, script: seq<seq<Signal>>, k: nat)
    requires Consumed(es, script, k)
    ensures k <= |script| && Heard(es) == Flat(script[..k])
  {}

  lemma NoneHeard(script: seq<seq<Signal>>)
    ensures Consumed([], script, 0)
  {}

  /** What follows rip_dead: record the status, then hand over, go on to the next process or
      return. */
  method TakeStatus(list: DeadList, job: JobCell, pid: int, asked: int, s: Status, res: Option<Status>,
                    monitor: bool, ghost w: W.Wait)
    returns (done: Option<Reply>, pid': int)
    requires list.Valid() && job.Ok() && w.phase == W.Holding(s)
    requires list.Dead() == w.dead && job.Value() == w.job && w.pid == pid && w.asked == asked
    requires res == if pid == asked then Some(s) else w.res
    modifies list, list.entries, job, job.exitCodes
    ensures list.Valid() && job.Ok()
    ensures var w1 := W.TakeStep(w, monitor);
            && w1.dead == list.Dead() && w1.job == job.Value() && w1.res == res
            && w1.asked == asked && w1.sigint == w.sigint
            && (if done.None? then w1.phase.Ready? && w1.pid == pid' && list.listindex == old(list.listindex)
                else Answers(done.value, w1) && !done.value.Blocked?)
  {
    hide W.Ripped, W.Note, W.Lookup, Valid, W.TryRipStep, Report, CountBits, W.TakeStep;
    TakeStepIs(w, monitor, res);
    job.SetPidExitStatus(pid, s);
    if monitor && (s.Stopped? || s.Signaled?) {
      list.NoticeTermination(pid, s);
      return Some(HandedOver(res)), pid;
    }
    var next := NextUnset(job);
    if job.childExits < job.procCount && next < job.procCount {
      return None, job.pids[next];
    }
    job.SetNotified();
    return Some(Returned(res)), pid;
  }

  lemma TakeStepIs(w: W.Wait, monitor: bool, res: Option<Status>)
    requires w.phase.Holding? && res == if w.pid == w.asked then Some(w.phase.s) else w.res
    ensures var s := w.phase.s;
            var j := Report(w.job, w.pid, s);
            var next := W.FirstUnset(j, 0);
            W.TakeStep(w, monitor) ==
            if monitor && (s.Stopped? || s.Signaled?) then
              W.Wait(W.Note(w.dead, w.pid, s), j, w.pid, w.asked, res, w.sigint, W.Handed)
            else if j.exits < |j.pids| && next < |j.pids| then
              W.Wait(w.dead, j, j.pids[next], w.asked, res, w.sigint, W.Ready)
            else W.Wait(w.dead, j.(notified := true), w.pid, w.asked, res, w.sigint, W.Finished)
  {
    hide Report, W.Note, W.FirstUnset;
  }

  // rip_dead on the list is that of the machine.
  lemma TryRipIs(w: W.Wait, s: Option<Status>)
    requires s == W.Listed(w.dead, w.pid)
    ensures W.TryRipStep(w) == w.(dead := W.Ripped(w.dead, w.pid),
                                  phase := if s.Some? then W.Holding(s.value) else W.Empty)
    ensures |W.Ripped(w.dead, w.pid)| < |w.dead| || s.None?
  {
  }
}
