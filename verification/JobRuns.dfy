/** Any sequence of what the shell and its jobs do to the jobs table. */
module JobRuns {
  import opened Processes
  import opened JobTable

  /* ----- every run ----- */

  // Progress is what set_pid_exit_status, the handler and the notifications do to an entry.
  datatype Act =
    | Start(slot: Slot)
    | Remove(index: nat)
    | RemoveDead
    | SetCurrent(num: nat)
    | Reset
    | Progress(index: nat, status: Status, exits: nat, notified: bool)

  function Progressed(t: Table, i: nat, status: Status, exits: nat, notified: bool): Table
    requires i < |t.jobs|
  {
    t.(jobs := t.jobs[i := t.jobs[i].(status := status, childExits := exits, notified := notified)])
  }

  // An act on an entry that is not there is one on a null pointer, and changes nothing.
  function Did(t: Table, a: Act): Table {
    match a
    case Start(s) => Added(t, s)
    case Remove(i) => if i < |t.jobs| then Removed(t, i) else t
    case RemoveDead => Swept(t, 0)
    case SetCurrent(n) => SetCur(t, n)
    case Reset => ResetCur(t)
    case Progress(i, status, exits, notified) => if i < |t.jobs| then Progressed(t, i, status, exits, notified) else t
  }

  function DidAll(t: Table, acts: seq<Act>): Table {
    if acts == [] then t else Did(DidAll(t, acts[..|acts| - 1]), acts[|acts| - 1])
  }

  /** A new job goes to the end with a number above every live one, and becomes current; a full
      table takes no job. */
  lemma AddedLast(t: Table, s: Slot)
    requires Numbered(t.jobs)
    ensures var r := Added(t, s);
            && Numbered(r.jobs)
            && (|t.jobs| >= 255 ==> r == t)
            && (|t.jobs| < 255 ==>
                  && r.cur == 1 + (if t.jobs == [] then 0 else t.jobs[|t.jobs| - 1].num)
                  && |r.jobs| == |t.jobs| + 1 && r.jobs[..|t.jobs|] == t.jobs
                  && r.jobs[|t.jobs|] == s.(num := r.cur) && !Live(t.jobs, r.cur)
                  && Live(r.jobs, r.prev))
  {
    hide SetCur, Numbered, Live, Highest, LiveStopped, OlderStopped, Former;
    if !Full(t) {
      var n := Highest(t.jobs) + 1;
      var u := t.(jobs := t.jobs + [s.(num := n)]);
      if t.jobs != [] { HighestLast(t.jobs); } else { EmptyHighest(); }
      AppendedNumbered(t.jobs, s.(num := n));
      SetCurLive(u, n);
      assert Added(t, s) == SetCur(u, n);
    }
  }

  lemma AppendedNumbered(jobs: seq<Slot>, s: Slot)
    requires Numbered(jobs) && |jobs| < MAX_JOBS && s.num > 0 && forall i :: 0 <= i < |jobs| ==> jobs[i].num < s.num
    ensures Numbered(jobs + [s]) && Live(jobs + [s], s.num) && !Live(jobs, s.num)
  {
    var u := jobs + [s];
    assert u[|jobs|] == s;
    forall i | 0 <= i < |jobs| ensures u[i] == jobs[i] {}
    forall i, k | 0 <= i < k < |u| ensures u[i].num < u[k].num {
      assert u[i] == jobs[i];
    }
  }

  /** Whatever the shell and its jobs do, the live jobs stay a gap-free prefix with strictly
      increasing numbers; and a reset afterwards finds both numbers live or none. */
  lemma {:induction false} RunsNumbered(acts: seq<Act>)
    ensures var t := DidAll(Table([], 0, 0), acts);
            && Numbered(t.jobs)
            && (var r := ResetCur(t); (r.cur == 0 && r.prev == 0) || (Live(t.jobs, r.cur) && Live(t.jobs, r.prev)))
  {
    var t := DidAll(Table([], 0, 0), acts);
    if acts == [] {
    } else {
      var a, u := acts[|acts| - 1], DidAll(Table([], 0, 0), acts[..|acts| - 1]);
      RunsNumbered(acts[..|acts| - 1]);
      DidNumbered(u, a);
    }
    ResetCurLive(t);
  }

  lemma DidNumbered(t: Table, a: Act)
    requires Numbered(t.jobs)
    ensures Numbered(Did(t, a).jobs)
  {
    match a
    case Start(s) => AddedLast(t, s);
    case Remove(i) => if i < |t.jobs| { RemovedNumbered(t, i); }
    case RemoveDead => SweepNumbered(t, 0);
    case SetCurrent(n) =>
    case Reset => ResetCurLive(t);
    case Progress(i, status, exits, notified) =>
  }

  /* ----- the table of SecondStoppedMissed is reached ----- */

  lemma DidNext(acts: seq<Act>, a: Act)
    ensures DidAll(Table([], 0, 0), acts + [a]) == Did(DidAll(Table([], 0, 0), acts), a)
  {
    assert (acts + [a])[..|acts|] == acts;
  }

  // A stopped job beside another stopped one that is current.
  lemma SetCurBeside(t: Table, n: nat)
    requires Numbered(t.jobs) && LiveStopped(t.jobs, n) && t.cur != n && LiveStopped(t.jobs, t.cur)
    ensures SetCur(t, n) == Table(t.jobs, n, t.cur)
  {
    OneJob(t.jobs, n);
    OneJob(t.jobs, t.cur);
    SetCurPrevious(t, n);
    SetCurLive(t, n);
    hide LiveStopped, LiveRunning, Live, Numbered, SetCur;
  }

  // The only job there is.
  lemma SetCurOnly(s: Slot)
    requires s.num == 1 && s.status.Stopped?
    ensures SetCur(Table([s], 0, 0), 1) == Table([s], 1, 1)
  {
    var t := Table([s], 0, 0);
    assert t.jobs[0].num == 1;
    OneJob(t.jobs, 0);
    OneJob(t.jobs, 1);
    SetCurPrevious(t, 1);
    SetCurLive(t, 1);
    LastStopped(t.jobs, 1);
    assert !OlderStopped(t.jobs, 1) && !OlderRunning(t.jobs, MAX_JOBS);
    hide LiveStopped, LiveRunning, Live, Numbered, SetCur, OlderStopped, OlderRunning;
  }

  function Three(s: Slot): seq<Slot> { [s.(num := 1), s.(num := 2), s.(num := 3)] }

  lemma ThreeStopped(s: Slot, k: nat)
    requires s.status.Stopped? && 1 <= k <= 3
    ensures var jobs := Three(s)[..k];
            Numbered(jobs) && Highest(jobs) == k && forall n :: 1 <= n <= k ==> LiveStopped(jobs, n)
  {
    var jobs := Three(s)[..k];
    assert forall i :: 0 <= i < k ==> jobs[i] == s.(num := i + 1);
    forall n | 1 <= n <= k ensures LiveStopped(jobs, n) { assert jobs[n - 1].num == n; }
    assert jobs[k - 1].num == k;
    HighestLast(jobs);
  }

  lemma HighestLast(jobs: seq<Slot>)
    requires Numbered(jobs) && jobs != []
    ensures Highest(jobs) == jobs[|jobs| - 1].num
  {
    var rest := jobs[..|jobs| - 1];
    assert forall i :: 0 <= i < |rest| ==> rest[i] == jobs[i];
    HighestBelow(rest, jobs[|jobs| - 1].num);
  }

  lemma {:induction false} HighestBelow(jobs: seq<Slot>, n: nat)
    requires n > 0 && forall i :: 0 <= i < |jobs| ==> jobs[i].num < n
    ensures Highest(jobs) < n
    decreases |jobs|
  {
    if jobs != [] {
      var rest := jobs[..|jobs| - 1];
      assert forall i :: 0 <= i < |rest| ==> rest[i] == jobs[i];
      HighestBelow(rest, n);
    }
  }

  // A stopped job joins k stopped ones of which the last is current.
  lemma AddStopped(s: Slot, k: nat, prev: nat)
    requires s.status.Stopped? && 1 <= k <= 2
    ensures Added(Table(Three(s)[..k], k, prev), s) == Table(Three(s)[..k + 1], k + 1, k)
  {
    ThreeStopped(s, k);
    ThreeStopped(s, k + 1);
    assert Three(s)[..k] + [s.(num := k + 1)] == Three(s)[..k + 1];
    hide Numbered, LiveStopped, SetCur, Highest, Three;
    SetCurBeside(Table(Three(s)[..k + 1], k, prev), k + 1);
  }

  /** Three stopped jobs are started, job 1 and then job 3 is made current, and job 3 goes away:
      then job 1 is current and there is no previous job although job 2 is stopped, and a reset
      makes job 1 both. */
  lemma SecondStoppedReached(s: Slot)
    requires s.status.Stopped?
    ensures var t := DidAll(Table([], 0, 0), [Start(s), Start(s), Start(s), SetCurrent(1), SetCurrent(3), Remove(2)]);
            && t == Table([s.(num := 1), s.(num := 2)], 1, 0)
            && ResetCur(t) == Table(t.jobs, 1, 1) && LiveStopped(t.jobs, 2)
  {
    var e := Table([], 0, 0);
    ReachThree(s);
    ReachTwo(s);
    var jobs := Three(s)[..2];
    ThreeStopped(s, 2);
    assert jobs == [s.(num := 1), s.(num := 2)];
    SecondStoppedMissed(s.(num := 1), s.(num := 2));
    hide DidAll, Three, LiveStopped, Numbered;
    ResetCurLive(Table(jobs, 1, 0));
  }

  lemma ReachThree(s: Slot)
    requires s.status.Stopped?
    ensures DidAll(Table([], 0, 0), [Start(s), Start(s), Start(s)]) == Table(Three(s), 3, 2)
  {
    ReachOne(s);
    assert Three(s)[..3] == Three(s);
    AddStopped(s, 1, 1);
    AddStopped(s, 2, 1);
    ThreeActs(Start(s));
    hide SetCur, DidAll, Three, Added;
    DidNext([Start(s)], Start(s));
    DidNext([Start(s)] + [Start(s)], Start(s));
  }

  lemma ThreeActs(a: Act)
    ensures [a] + [a] + [a] == [a, a, a]
  {}

  lemma ReachOne(s: Slot)
    requires s.status.Stopped?
    ensures DidAll(Table([], 0, 0), [Start(s)]) == Table(Three(s)[..1], 1, 1)
  {
    AddFirst(s);
    assert Three(s)[..1] == [s.(num := 1)];
    assert DidAll(Table([], 0, 0), []) == Table([], 0, 0) && [] + [Start(s)] == [Start(s)];
    hide Added, DidAll, Three;
    DidNext([], Start(s));
  }

  lemma AddFirst(s: Slot)
    requires s.status.Stopped?
    ensures Added(Table([], 0, 0), s) == Table([s.(num := 1)], 1, 1)
  {
    var u := s.(num := 1);
    EmptyHighest();
    AddedIs(Table([], 0, 0), s);
    FirstJob(u);
    SetCurOnly(u);
    hide *;
    assert Added(Table([], 0, 0), s) == SetCur(Table([u], 0, 0), 1);
  }

  lemma EmptyHighest()
    ensures Highest([]) == 0
  {}

  lemma AddedIs(t: Table, s: Slot)
    requires |t.jobs| < MAX_JOBS
    ensures var n := Highest(t.jobs) + 1; Added(t, s) == SetCur(Table(t.jobs + [s.(num := n)], t.cur, t.prev), n)
  {
    hide SetCur, Highest;
  }

  lemma FirstJob(s: Slot)
    ensures [] + [s] == [s]
  {}

  lemma ReachTwo(s: Slot)
    requires s.status.Stopped?
    requires DidAll(Table([], 0, 0), [Start(s), Start(s), Start(s)]) == Table(Three(s), 3, 2)
    ensures DidAll(Table([], 0, 0), [Start(s), Start(s), Start(s), SetCurrent(1), SetCurrent(3), Remove(2)]) ==
            Table(Three(s)[..2], 1, 0)
  {
    var a := [Start(s), Start(s), Start(s)];
    ThreeStopped(s, 3);
    assert Three(s)[..3] == Three(s);
    assert Three(s)[2].num == 3 && Three(s)[..2] + Three(s)[3..] == Three(s)[..2];
    hide SetCur, DidAll, LiveStopped, Numbered;
    DidNext(a, SetCurrent(1));
    SetCurBeside(Table(Three(s), 3, 2), 1);
    DidNext(a + [SetCurrent(1)], SetCurrent(3));
    SetCurBeside(Table(Three(s), 1, 3), 3);
    DidNext(a + [SetCurrent(1)] + [SetCurrent(3)], Remove(2));
    assert a + [SetCurrent(1)] + [SetCurrent(3)] + [Remove(2)]
           == [Start(s), Start(s), Start(s), SetCurrent(1), SetCurrent(3), Remove(2)];
  }
}
