/** The jobs table, its numbering, and the choice of the current and the previous job, as
    functions of the live jobs in table order. */
module JobTable {
  import opened Processes

  const MAX_JOBS: nat := 255

  /** One entry of the table; num is 0 in a free one. The status Exited(0) is the int 0, which
      also stands for a job that has not reported anything yet. */
  datatype Slot = Slot(num: nat, status: Status, procCount: nat, childExits: nat, notified: bool, foreground: bool)

  // RUNNING(status)
  predicate Running(s: Status) { s == Exited(0) || s.Continued? }

  datatype Table = Table(jobs: seq<Slot>, cur: nat, prev: nat)

  /** The live jobs are numbered from 1 up, in increasing order. */
  predicate Numbered(jobs: seq<Slot>) {
    && |jobs| <= MAX_JOBS
    && (forall i :: 0 <= i < |jobs| ==> jobs[i].num > 0)
    && (forall i, k :: 0 <= i < k < |jobs| ==> jobs[i].num < jobs[k].num)
  }

  predicate Live(jobs: seq<Slot>, n: nat) { exists i :: 0 <= i < |jobs| && jobs[i].num == n }

  predicate LiveStopped(jobs: seq<Slot>, n: nat) {
    exists i :: 0 <= i < |jobs| && jobs[i].num == n && jobs[i].status.Stopped?
  }

  predicate LiveRunning(jobs: seq<Slot>, n: nat) {
    exists i :: 0 <= i < |jobs| && jobs[i].num == n && (jobs[i].status == Exited(0) || jobs[i].status.Continued?)
  }

  // get_job_by_jobid: the index of the job, or their number when there is none.
  function ById(jobs: seq<Slot>, n: nat): (i: nat)
    ensures i <= |jobs| && forall k :: 0 <= k < i ==> jobs[k].num != n
    ensures i < |jobs| ==> jobs[i].num == n
  {
    if jobs == [] || jobs[0].num == n then 0 else 1 + ById(jobs[1..], n)
  }

  predicate Test(s: Slot, running: bool) { if running then Running(s.status) else s.status.Stopped? }

  // last_job_with_status, by number; 0 when there is none.
  function LastWith(jobs: seq<Slot>, older: nat, running: bool): nat {
    if jobs == [] then 0
    else
      var best, s := LastWith(jobs[..|jobs| - 1], older, running), jobs[|jobs| - 1];
      if s.num < older && Test(s, running) && s.num > best then s.num else best
  }

  /** The job with the highest number among those that are older and have the status. */
  lemma {:induction false} LastWithHighest(jobs: seq<Slot>, older: nat, running: bool)
    requires forall i :: 0 <= i < |jobs| ==> jobs[i].num > 0
    ensures var n := LastWith(jobs, older, running);
            && (n > 0 ==> n < older && exists i :: 0 <= i < |jobs| && jobs[i].num == n && Test(jobs[i], running))
            && (forall i :: 0 <= i < |jobs| && jobs[i].num < older && Test(jobs[i], running) ==> jobs[i].num <= n)
    decreases |jobs|
  {
    if jobs != [] {
      var rest, s := jobs[..|jobs| - 1], jobs[|jobs| - 1];
      LastWithHighest(rest, older, running);
      var n := LastWith(rest, older, running);
      if n > 0 {
        var i :| 0 <= i < |rest| && rest[i].num == n && Test(rest[i], running);
        assert jobs[i] == rest[i];
      }
      forall i | 0 <= i < |jobs| && jobs[i].num < older && Test(jobs[i], running)
        ensures jobs[i].num <= LastWith(jobs, older, running)
      {
        if i < |rest| { assert jobs[i] == rest[i]; }
      }
    }
  }

  /* ----- the current and the previous job ----- */

  // The previous job that set_cur_job starts from.
  function Former(t: Table, n: nat): nat { if t.cur != n then t.cur else t.prev }

  // The job it finds beside the current one, numbered n: an older stopped one beside a stopped
  // one, else a running one; 0 for none.
  function Beside(jobs: seq<Slot>, cur: Slot, n: nat): nat {
    var older := LastWith(jobs, cur.num, false);
    if cur.status.Stopped? && older != 0 then older
    else LastWith(jobs, if Running(cur.status) then n else MAX_JOBS, true)
  }

  // The previous job it settles on.
  function Settled(t: Table): nat {
    var p, c := ById(t.jobs, t.prev), ById(t.jobs, t.cur);
    if t.prev != 0 && t.prev != t.cur && p < |t.jobs| && t.jobs[p].status.Stopped? then t.prev
    else if t.cur != 0 && c < |t.jobs| && Beside(t.jobs, t.jobs[c], t.cur) != 0 then Beside(t.jobs, t.jobs[c], t.cur)
    else t.cur
  }

  // set_cur_job on the job numbered n
  function SetCur(t: Table, n: nat): Table {
    var u := Table(t.jobs, n, Former(t, n));
    u.(prev := Settled(u))
  }

  predicate StoppedAt(jobs: seq<Slot>, n: nat) {
    n != 0 && ById(jobs, n) < |jobs| && jobs[ById(jobs, n)].status.Stopped?
  }

  // The job reset_cur_job makes current; 0 for none.
  function Chosen(t: Table): nat {
    if t.jobs != [] && StoppedAt(t.jobs, t.cur) then t.cur
    else if StoppedAt(t.jobs, t.prev) then t.prev
    else
      var s := LastWith(t.jobs, MAX_JOBS, false);
      if s != 0 then s else LastWith(t.jobs, MAX_JOBS, true)
  }

  // reset_cur_job
  function ResetCur(t: Table): Table {
    if Chosen(t) != 0 then SetCur(t, Chosen(t)) else t.(cur := 0, prev := 0)
  }

  lemma StoppedAtLive(jobs: seq<Slot>, n: nat)
    requires Numbered(jobs)
    ensures StoppedAt(jobs, n) <==> LiveStopped(jobs, n)
  {
    if LiveStopped(jobs, n) {
      var i :| 0 <= i < |jobs| && jobs[i].num == n && jobs[i].status.Stopped?;
      var b := ById(jobs, n);
      assert b <= i;
      assert b == i;
    }
  }

  ghost predicate OlderStopped(jobs: seq<Slot>, n: nat) { exists m: nat :: m < n && LiveStopped(jobs, m) }

  ghost predicate OlderRunning(jobs: seq<Slot>, n: nat) { exists m: nat :: m < n && LiveRunning(jobs, m) }

  // LastWith finds a job exactly when there is one.
  lemma LastStopped(jobs: seq<Slot>, older: nat)
    requires Numbered(jobs)
    ensures var n := LastWith(jobs, older, false);
            && (n != 0 ==> n < older && LiveStopped(jobs, n))
            && (n != 0 <==> OlderStopped(jobs, older))
            && forall m: nat :: m < older && LiveStopped(jobs, m) ==> m <= n
  {
    LastWithHighest(jobs, older, false);
    var n := LastWith(jobs, older, false);
    if n != 0 {
      var i :| 0 <= i < |jobs| && jobs[i].num == n && Test(jobs[i], false);
      assert LiveStopped(jobs, n);
    }
    forall m: nat | m < older && LiveStopped(jobs, m) ensures 0 < m <= n {
      var i :| 0 <= i < |jobs| && jobs[i].num == m && jobs[i].status.Stopped?;
      assert Test(jobs[i], false);
    }
  }

  lemma LastRunning(jobs: seq<Slot>, older: nat)
    requires Numbered(jobs)
    ensures var n := LastWith(jobs, older, true);
            && (n != 0 ==> n < older && LiveRunning(jobs, n))
            && (n != 0 <==> OlderRunning(jobs, older))
            && forall m: nat :: m < older && LiveRunning(jobs, m) ==> m <= n
  {
    LastWithHighest(jobs, older, true);
    var n := LastWith(jobs, older, true);
    if n != 0 {
      var i :| 0 <= i < |jobs| && jobs[i].num == n && Test(jobs[i], true);
      assert LiveRunning(jobs, n);
    }
    forall m: nat | m < older && LiveRunning(jobs, m) ensures 0 < m <= n {
      var i :| 0 <= i < |jobs| && jobs[i].num == m && (jobs[i].status == Exited(0) || jobs[i].status.Continued?);
      assert Test(jobs[i], true);
    }
  }

  // One number, one job: a running one is not stopped, and a live one is found.
  lemma OneJob(jobs: seq<Slot>, n: nat)
    requires Numbered(jobs)
    ensures !(LiveRunning(jobs, n) && LiveStopped(jobs, n))
    ensures Live(jobs, n) <==> ById(jobs, n) < |jobs|
    ensures Live(jobs, n) ==> n != 0
    ensures LiveRunning(jobs, n) || LiveStopped(jobs, n) ==> Live(jobs, n)
  {
    if Live(jobs, n) {
      var i :| 0 <= i < |jobs| && jobs[i].num == n;
      assert ById(jobs, n) == i;
    }
  }

  /** After set_cur_job on a live job both numbers name live jobs, however stale they were. The
      previous job is another stopped job exactly when the former one already was, or when the
      job is stopped itself and an older one is stopped as well. */
  lemma SetCurLive(t: Table, n: nat)
    requires Numbered(t.jobs) && Live(t.jobs, n)
    ensures var r, f := SetCur(t, n), if t.cur != n then t.cur else t.prev;
            && r.jobs == t.jobs && r.cur == n && Live(t.jobs, r.prev)
            && ((r.prev != n && LiveStopped(t.jobs, r.prev)) <==>
                  || (f != n && LiveStopped(t.jobs, f))
                  || (LiveStopped(t.jobs, n) && OlderStopped(t.jobs, n)))
  {
    var r, f, c := SetCur(t, n), Former(t, n), ById(t.jobs, n);
    var u := Table(t.jobs, n, f);
    OneJob(t.jobs, n);
    OneJob(t.jobs, f);
    OneJob(t.jobs, r.prev);
    StoppedAtLive(t.jobs, f);
    StoppedAtLive(t.jobs, n);
    LastStopped(t.jobs, n);
    LastRunning(t.jobs, n);
    LastRunning(t.jobs, MAX_JOBS);
    hide LastWith, LiveStopped, LiveRunning, OlderStopped, OlderRunning, Live, Numbered, ById;
    assert t.jobs[c].num == n;
    if f != n && LiveStopped(t.jobs, f) {
      assert Settled(u) == f;
    } else if LiveStopped(t.jobs, n) && OlderStopped(t.jobs, n) {
      assert Settled(u) == LastWith(t.jobs, n, false);
    } else {
      var run := LastWith(t.jobs, if Running(t.jobs[c].status) then n else MAX_JOBS, true);
      assert Settled(u) == if run != 0 then run else n;
    }
  }

  // The newest job among the live ones with the property that are older than the bound.
  ghost predicate NewestStopped(jobs: seq<Slot>, bound: nat, n: nat) {
    n < bound && LiveStopped(jobs, n) && forall m: nat :: m < bound && LiveStopped(jobs, m) ==> m <= n
  }

  ghost predicate NewestRunning(jobs: seq<Slot>, bound: nat, n: nat) {
    n < bound && LiveRunning(jobs, n) && forall m: nat :: m < bound && LiveRunning(jobs, m) ==> m <= n
  }

  /** Which job becomes the previous one: the former one if it is another stopped job; else the
      newest stopped job older than a stopped current one; else the newest running job, older
      than the current one if that runs; else the current job itself. */
  lemma SetCurPrevious(t: Table, n: nat)
    requires Numbered(t.jobs) && Live(t.jobs, n)
    ensures var r, f := SetCur(t, n), if t.cur != n then t.cur else t.prev;
            var bound := if LiveRunning(t.jobs, n) then n else MAX_JOBS;
            if f != n && LiveStopped(t.jobs, f) then r.prev == f
            else if LiveStopped(t.jobs, n) && OlderStopped(t.jobs, n) then NewestStopped(t.jobs, n, r.prev)
            else if OlderRunning(t.jobs, bound) then NewestRunning(t.jobs, bound, r.prev)
            else r.prev == n
  {
    var f, c := Former(t, n), ById(t.jobs, n);
    var u := Table(t.jobs, n, f);
    OneJob(t.jobs, n);
    OneJob(t.jobs, f);
    StoppedAtLive(t.jobs, f);
    StoppedAtLive(t.jobs, n);
    LastStopped(t.jobs, n);
    LastRunning(t.jobs, n);
    LastRunning(t.jobs, MAX_JOBS);
    assert LiveRunning(t.jobs, n) <==> Running(t.jobs[c].status) by { RunningAt(t.jobs, n); }
    hide LastWith, LiveStopped, LiveRunning, OlderStopped, OlderRunning, Live, Numbered, ById;
    assert t.jobs[c].num == n;
    if f != n && LiveStopped(t.jobs, f) {
      assert Settled(u) == f;
    } else if LiveStopped(t.jobs, n) && OlderStopped(t.jobs, n) {
      assert Settled(u) == LastWith(t.jobs, n, false);
    } else {
      var run := LastWith(t.jobs, if Running(t.jobs[c].status) then n else MAX_JOBS, true);
      assert Settled(u) == if run != 0 then run else n;
    }
  }

  lemma RunningAt(jobs: seq<Slot>, n: nat)
    requires Numbered(jobs) && Live(jobs, n)
    ensures ById(jobs, n) < |jobs| && (LiveRunning(jobs, n) <==> Running(jobs[ById(jobs, n)].status))
  {
    OneJob(jobs, n);
  }

  // Some stopped job is within reset_cur_job's reach.
  ghost predicate StoppedInReach(t: Table) {
    LiveStopped(t.jobs, t.cur) || LiveStopped(t.jobs, t.prev) || OlderStopped(t.jobs, MAX_JOBS)
  }

  lemma ChosenLive(t: Table)
    requires Numbered(t.jobs)
    ensures var n := Chosen(t);
            && (n != 0 ==> Live(t.jobs, n))
            && (LiveStopped(t.jobs, n) <==> StoppedInReach(t))
            && (n == 0 <==> !StoppedInReach(t) && !OlderRunning(t.jobs, MAX_JOBS))
  {
    var n := Chosen(t);
    OneJob(t.jobs, n);
    OneJob(t.jobs, t.cur);
    OneJob(t.jobs, t.prev);
    StoppedAtLive(t.jobs, t.cur);
    StoppedAtLive(t.jobs, t.prev);
    LastStopped(t.jobs, MAX_JOBS);
    LastRunning(t.jobs, MAX_JOBS);
    hide LastWith, LiveRunning, OlderStopped, OlderRunning, Live, Numbered, ById;
  }

  /** Which job reset_cur_job makes current: the current one if it is stopped, else the
      previous one if that is, else the newest stopped job, else the newest running one. */
  lemma ResetCurChoice(t: Table)
    requires Numbered(t.jobs)
    ensures var r := ResetCur(t);
            if LiveStopped(t.jobs, t.cur) then r.cur == t.cur
            else if LiveStopped(t.jobs, t.prev) then r.cur == t.prev
            else if OlderStopped(t.jobs, MAX_JOBS) then NewestStopped(t.jobs, MAX_JOBS, r.cur)
            else if OlderRunning(t.jobs, MAX_JOBS) then NewestRunning(t.jobs, MAX_JOBS, r.cur)
            else r.cur == 0
  {
    OneJob(t.jobs, t.cur);
    OneJob(t.jobs, t.prev);
    StoppedAtLive(t.jobs, t.cur);
    StoppedAtLive(t.jobs, t.prev);
    LastStopped(t.jobs, MAX_JOBS);
    LastRunning(t.jobs, MAX_JOBS);
    hide LastWith, LiveStopped, LiveRunning, OlderStopped, OlderRunning, Live, Numbered, ById, Settled;
    assert ResetCur(t).cur == Chosen(t);
  }

  ghost predicate TwoStopped(jobs: seq<Slot>, bound: nat) {
    exists m: nat :: m < bound && LiveStopped(jobs, m) && OlderStopped(jobs, m)
  }

  // A second stopped job that reset_cur_job makes the previous one.
  ghost predicate SecondInReach(t: Table) {
    if LiveStopped(t.jobs, t.cur) then (t.prev != t.cur && LiveStopped(t.jobs, t.prev)) || OlderStopped(t.jobs, t.cur)
    else if LiveStopped(t.jobs, t.prev) then OlderStopped(t.jobs, t.prev)
    else TwoStopped(t.jobs, MAX_JOBS)
  }

  // For the job that is chosen: the former one is stopped, or an older one is.
  lemma SecondOfChoice(t: Table)
    requires Numbered(t.jobs) && StoppedInReach(t)
    ensures var n := Chosen(t);
            SecondInReach(t) <==> (Former(t, n) != n && LiveStopped(t.jobs, Former(t, n))) || OlderStopped(t.jobs, n)
  {
    var n := Chosen(t);
    ResetCurChoice(t);
    assert ResetCur(t).cur == n by { hide SetCur, Chosen; ResetCurTo(t); }
    hide LiveStopped, ResetCur, Chosen, Numbered;
    if !LiveStopped(t.jobs, t.cur) && !LiveStopped(t.jobs, t.prev) {
      if TwoStopped(t.jobs, MAX_JOBS) {
        var m: nat :| m < MAX_JOBS && LiveStopped(t.jobs, m) && OlderStopped(t.jobs, m);
        assert m <= n;
      }
    }
  }

  lemma ResetCurTo(t: Table)
    ensures ResetCur(t).cur == Chosen(t)
  {}

  /** After reset_cur_job, from any table and any stale numbers, there is either no current and
      no previous job or both are live. The current job is stopped exactly when a stopped job
      was within reach: the old current one, the old previous one, or one numbered below
      MAX_JOBS; and there is none exactly when there is no such running job either. The
      previous job is then another stopped job exactly when a second one was within reach:
      beside a stopped current job a stopped previous one or an older one, beside a stopped
      previous job an older one, and otherwise any two. */
  lemma ResetCurLive(t: Table)
    requires Numbered(t.jobs)
    ensures var r := ResetCur(t);
            && r.jobs == t.jobs
            && ((r.cur == 0 && r.prev == 0) || (Live(t.jobs, r.cur) && Live(t.jobs, r.prev)))
            && (LiveStopped(t.jobs, r.cur) <==> StoppedInReach(t))
            && (r.cur == 0 <==> !StoppedInReach(t) && !OlderRunning(t.jobs, MAX_JOBS))
            && (StoppedInReach(t) ==> (r.prev != r.cur && LiveStopped(t.jobs, r.prev) <==> SecondInReach(t)))
  {
    var n := Chosen(t);
    ChosenLive(t);
    OneJob(t.jobs, 0);
    if StoppedInReach(t) { SecondOfChoice(t); }
    if n != 0 { SetCurLive(t, n); }
    hide LastWith, LiveStopped, LiveRunning, OlderStopped, OlderRunning, Live, Numbered, ById, SetCur, StoppedAt,
         StoppedInReach, Former, Chosen, SecondInReach;
    assert ResetCur(t) == if n != 0 then SetCur(t, n) else t.(cur := 0, prev := 0);
  }

  /** set_cur_job on a job that is not in the table makes its number the current one all the
      same, for a job that has none 0; the previous job is the former one if that is stopped,
      and the same number otherwise. */
  lemma SetCurAbsent(t: Table, n: nat)
    requires Numbered(t.jobs) && !Live(t.jobs, n)
    ensures var r, f := SetCur(t, n), if t.cur != n then t.cur else t.prev;
            r == Table(t.jobs, n, if LiveStopped(t.jobs, f) then f else n)
  {
    var f := Former(t, n);
    OneJob(t.jobs, n);
    OneJob(t.jobs, f);
    StoppedAtLive(t.jobs, f);
    hide LastWith, LiveStopped, LiveRunning, Live, Numbered, ById;
  }

  /** Two stopped jobs do not always make the previous job a stopped one: with jobs 1 and 2
      stopped, job 1 current and no previous job, reset_cur_job leaves job 1 as both. */
  lemma SecondStoppedMissed(s1: Slot, s2: Slot)
    requires s1.num == 1 && s2.num == 2 && s1.status.Stopped? && s2.status.Stopped?
    ensures var r := ResetCur(Table([s1, s2], 1, 0));
            r.cur == 1 && r.prev == 1 && LiveStopped(r.jobs, 1) && LiveStopped(r.jobs, 2)
  {
    var t := Table([s1, s2], 1, 0);
    assert t.jobs[0] == s1 && t.jobs[1] == s2;
    assert ById(t.jobs, 1) == 0 && StoppedAt(t.jobs, 1);
    assert Chosen(t) == 1;
    LastStopped(t.jobs, 1);
    LastRunning(t.jobs, MAX_JOBS);
    assert !OlderStopped(t.jobs, 1) && !OlderRunning(t.jobs, MAX_JOBS);
    hide LastWith, OlderStopped, OlderRunning, Numbered, ById;
    assert SetCur(t, 1) == Table(t.jobs, 1, 1);
  }

  /* ----- adding and removing ----- */

  function Highest(jobs: seq<Slot>): (n: nat)
    ensures forall i :: 0 <= i < |jobs| ==> jobs[i].num <= n
  {
    if jobs == [] then 0
    else
      var n, s := Highest(jobs[..|jobs| - 1]), jobs[|jobs| - 1];
      assert forall i :: 0 <= i < |jobs| - 1 ==> jobs[i] == jobs[..|jobs| - 1][i];
      if s.num > n then s.num else n
  }

  predicate Full(t: Table) { |t.jobs| >= MAX_JOBS }

  // add_job; a full table is left alone.
  function Added(t: Table, s: Slot): Table {
    if Full(t) then t
    else
      var n := Highest(t.jobs) + 1;
      SetCur(t.(jobs := t.jobs + [s.(num := n)]), n)
  }

  // remove_job on the entry at i
  function Removed(t: Table, i: nat): Table
    requires i < |t.jobs|
  {
    var jobs := t.jobs[..i] + t.jobs[i + 1..];
    if t.jobs[i].num == t.cur then Table(jobs, t.prev, 0) else t.(jobs := jobs)
  }

  /** Removing an entry moves the ones behind it down by one, and changes the two numbers only if
      it was the current job: then the previous job becomes current, and none previous. */
  lemma RemovedFollows(t: Table, i: nat)
    requires i < |t.jobs|
    ensures var r := Removed(t, i);
            && |r.jobs| == |t.jobs| - 1
            && (forall j :: 0 <= j < |r.jobs| ==> r.jobs[j] == t.jobs[if j < i then j else j + 1])
            && (t.jobs[i].num == t.cur ==> r.cur == t.prev && r.prev == 0)
            && (t.jobs[i].num != t.cur ==> r.cur == t.cur && r.prev == t.prev)
  {}

  // finished, and the user was told
  predicate Dead(s: Slot) { s.childExits == s.procCount && s.notified }

  // remove_dead_jobs from entry k on: after a removal the same index is looked at again.
  function Swept(t: Table, k: nat): Table
    requires k <= |t.jobs|
    decreases |t.jobs| - k
  {
    if k == |t.jobs| then t
    else if Dead(t.jobs[k]) then Swept(Removed(t, k), k)
    else Swept(t, k + 1)
  }

  // The jobs that stay, in their order.
  function Kept(jobs: seq<Slot>): seq<Slot> {
    if jobs == [] then []
    else (if Dead(jobs[0]) then [] else [jobs[0]]) + Kept(jobs[1..])
  }

  predicate LiveDead(jobs: seq<Slot>, n: nat) { exists i :: 0 <= i < |jobs| && jobs[i].num == n && Dead(jobs[i]) }

  // What the sweep makes of the two numbers: it looks at the current one only.
  function SweptNumbers(jobs: seq<Slot>, cur: nat, prev: nat): (nat, nat) {
    if !LiveDead(jobs, cur) then (cur, prev)
    else if prev > cur && LiveDead(jobs, prev) then (0, 0)
    else (prev, 0)
  }

  // The sweep from k on filters the entries from k on.
  lemma {:induction false} SweepFilters(t: Table, k: nat)
    requires k <= |t.jobs|
    ensures Swept(t, k).jobs == t.jobs[..k] + Kept(t.jobs[k..])
    decreases |t.jobs| - k
  {
    hide Dead;
    if k == |t.jobs| {
      assert t.jobs[k..] == [];
      assert t.jobs[..k] == t.jobs;
    } else {
      var s, rest := t.jobs[k], t.jobs[k + 1..];
      assert t.jobs[k..] == [s] + rest;
      assert Kept([s] + rest) == (if Dead(s) then [] else [s]) + Kept(rest) by {
        assert ([s] + rest)[1..] == rest;
      }
      if Dead(s) {
        var r := Removed(t, k);
        SweepFilters(r, k);
        assert r.jobs[..k] == t.jobs[..k] && r.jobs[k..] == rest;
      } else {
        SweepFilters(t, k + 1);
        assert t.jobs[..k + 1] == t.jobs[..k] + [s];
        assert t.jobs[..k] + [s] + Kept(rest) == t.jobs[..k] + ([s] + Kept(rest));
      }
    }
  }

  // What Kept keeps, stated without it.
  lemma {:induction false} KeptExactly(jobs: seq<Slot>)
    ensures |Kept(jobs)| <= |jobs|
    ensures forall s :: s in Kept(jobs) <==> s in jobs && !(s.childExits == s.procCount && s.notified)
  {
    if jobs != [] {
      KeptExactly(jobs[1..]);
      forall s ensures s in Kept(jobs) <==> s in jobs && !Dead(s) {
        assert s in jobs <==> s == jobs[0] || s in jobs[1..];
      }
    }
  }

  lemma RemovedNumbered(t: Table, i: nat)
    requires Numbered(t.jobs) && i < |t.jobs|
    ensures Numbered(Removed(t, i).jobs)
  {
    var r := Removed(t, i).jobs;
    forall j | 0 <= j < |r| ensures r[j] == t.jobs[if j < i then j else j + 1] {}
  }

  lemma {:induction false} SweepNumbered(t: Table, k: nat)
    requires Numbered(t.jobs) && k <= |t.jobs|
    ensures Numbered(Swept(t, k).jobs)
    decreases |t.jobs| - k
  {
    if k == |t.jobs| {
    } else if Dead(t.jobs[k]) {
      RemovedNumbered(t, k);
      SweepNumbered(Removed(t, k), k);
    } else {
      SweepNumbered(t, k + 1);
    }
  }

  // The numbers after a sweep from k on, in terms of the entries still to come.
  lemma {:induction false} SweepNumbers(t: Table, k: nat)
    requires Numbered(t.jobs) && k <= |t.jobs|
    ensures (Swept(t, k).cur, Swept(t, k).prev) == SweptNumbers(t.jobs[k..], t.cur, t.prev)
    decreases |t.jobs| - k
  {
    hide SweptNumbers;
    if k < |t.jobs| {
      var s, rest := t.jobs[k], t.jobs[k + 1..];
      assert t.jobs[k..] == [s] + rest;
      assert forall i :: 0 <= i < |rest| ==> rest[i] == t.jobs[k + 1 + i];
      NumbersStep(s, rest, t.cur, t.prev);
      if Dead(s) {
        RemovedNumbered(t, k);
        assert Removed(t, k).jobs[k..] == rest;
        SweepNumbers(Removed(t, k), k);
      } else {
        SweepNumbers(t, k + 1);
      }
    } else {
      assert t.jobs[k..] == [];
      assert !LiveDead([], t.cur);
      assert SweptNumbers([], t.cur, t.prev) == (t.cur, t.prev) by { NoneDead(t.cur, t.prev); }
    }
  }

  /** remove_dead_jobs is a stable filter that drops exactly the finished and notified jobs. A
      dead current job is replaced by the previous one, and by none when that one is dead and
      newer; a dead previous job is otherwise not noticed. */
  lemma SweepWhole(t: Table)
    requires Numbered(t.jobs)
    ensures Swept(t, 0).jobs == Kept(t.jobs)
    ensures (Swept(t, 0).cur, Swept(t, 0).prev) == SweptNumbers(t.jobs, t.cur, t.prev)
  {
    SweepFilters(t, 0);
    SweepNumbers(t, 0);
    assert t.jobs[0..] == t.jobs && t.jobs[..0] == [];
  }

  lemma NoneDead(cur: nat, prev: nat)
    ensures SweptNumbers([], cur, prev) == (cur, prev)
  {}

  lemma LiveDeadStep(s: Slot, rest: seq<Slot>, n: nat)
    ensures LiveDead([s] + rest, n) <==> (s.num == n && Dead(s)) || LiveDead(rest, n)
  {
    var all := [s] + rest;
    if LiveDead(all, n) {
      var i :| 0 <= i < |all| && all[i].num == n && Dead(all[i]);
      if i > 0 { assert rest[i - 1] == all[i]; }
    }
    if LiveDead(rest, n) {
      var i :| 0 <= i < |rest| && rest[i].num == n && Dead(rest[i]);
      assert all[i + 1] == rest[i];
    }
    if s.num == n && Dead(s) { assert all[0] == s; }
  }

  lemma NumbersStep(s: Slot, rest: seq<Slot>, cur: nat, prev: nat)
    requires s.num > 0 && forall i :: 0 <= i < |rest| ==> rest[i].num > s.num
    ensures SweptNumbers([s] + rest, cur, prev)
            == if Dead(s) && s.num == cur then SweptNumbers(rest, prev, 0) else SweptNumbers(rest, cur, prev)
  {
    LiveDeadStep(s, rest, cur);
    LiveDeadStep(s, rest, prev);
    assert !LiveDead(rest, 0) && !LiveDead(rest, s.num);
    assert LiveDead(rest, prev) ==> prev > s.num;
    assert LiveDead(rest, cur) ==> cur > s.num;
    hide LiveDead;
  }
}
