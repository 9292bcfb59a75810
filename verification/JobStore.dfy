/** The jobs table as the shell keeps it: an array of entries that is shifted in place, with the
    number of live jobs and the current and previous job beside it. */
module JobStore {
  import opened Basics
  import opened Processes
  import opened JobTable

  class JobsTable {
    const jobs: array<Slot>
    var totalJobs: nat
    var curJob: nat
    var prevJob: nat

    ghost predicate Valid()
      reads this, jobs
    {
      && jobs.Length == MAX_JOBS && totalJobs <= MAX_JOBS
      && Numbered(jobs[..totalJobs])
      && (forall i :: totalJobs <= i < jobs.Length ==> jobs[i].num == 0)
    }

    ghost function View(): (t: Table)
      requires Valid()
      reads this, jobs
    {
      Table(jobs[..totalJobs], curJob, prevJob)
    }

    constructor ()
      ensures Valid() && fresh(jobs) && View() == Table([], 0, 0)
    {
      jobs := new Slot[MAX_JOBS](_ => Slot(0, Exited(0), 0, 0, false, false));
      totalJobs, curJob, prevJob := 0, 0, 0;
    }

    // -1 is the null pointer.
    method GetJobByJobid(n: nat) returns (job: int)
      requires Valid()
      ensures job == if n == 0 || ById(View().jobs, n) == totalJobs then -1 else ById(View().jobs, n)
      ensures -1 <= job < totalJobs
      ensures job != -1 ==> jobs[job] == View().jobs[job] && jobs[job].num == n
    {
      if n == 0 { return -1; }
      var i := 0;
      while i < MAX_JOBS
        invariant 0 <= i <= MAX_JOBS
        invariant forall k :: 0 <= k < i ==> jobs[k].num != n
      {
        if jobs[i].num == n {
          assert View().jobs[i].num == n;
          assert ById(View().jobs, n) == i;
          return i;
        }
        i := i + 1;
      }
      return -1;
    }

    method LastJobWithStatus(older: nat, running: bool) returns (job: int)
      requires Valid()
      ensures -1 <= job < totalJobs
      ensures LastWith(View().jobs, older, running) == if job == -1 then 0 else jobs[job].num
      ensures job != -1 ==> jobs[job].num > 0 && jobs[job] == View().jobs[job]
    {
      job := -1;
      var i := 0;
      while i < MAX_JOBS
        invariant 0 <= i <= MAX_JOBS
        invariant -1 <= job < totalJobs
        invariant job != -1 ==> jobs[job].num > 0
        invariant LastWith(jobs[..if i < totalJobs then i else totalJobs], older, running)
                  == if job == -1 then 0 else jobs[job].num
      {
        var n := jobs[i].num;
        if i < totalJobs {
          assert jobs[..i + 1][..i] == jobs[..i];
        }
        if n != 0 && n < older && Test(jobs[i], running) {
          if job == -1 || n > jobs[job].num {
            job := i;
          }
        }
        i := i + 1;
      }
    }

    // The search of SetCurJob.
    method Settle() returns (prev: nat)
      requires Valid()
      ensures prev == Settled(View())
    {
      hide Numbered, ById, LastWith;
      if prevJob != 0 && prevJob != curJob {
        var job2 := StoppedJob(prevJob);
        if job2 != -1 { return prevJob; }
      }
      var cur := GetJobByJobid(curJob);
      if cur == -1 { return curJob; }
      prev := SettleBeside(cur);
      if prev == 0 { prev := curJob; }
    }

    // The previous job beside a live current one; 0 for none.
    method SettleBeside(cur: nat) returns (prev: nat)
      requires Valid() && cur < totalJobs
      ensures prev == Beside(View().jobs, View().jobs[cur], curJob)
    {
      hide Numbered, LastWith;
      if jobs[cur].status.Stopped? {
        var job2 := LastJobWithStatus(jobs[cur].num, false);
        if job2 != -1 { return jobs[job2].num; }
      }
      var job2 := LastJobWithStatus(if Running(jobs[cur].status) then curJob else MAX_JOBS, true);
      return if job2 != -1 then jobs[job2].num else 0;
    }

    /** Only the number of the job is looked at, so that the job need not be in the table: for one
        that has not been added it is 0. */
    method SetCurJob(job: Option<nat>)
      requires Valid()
      modifies `curJob, `prevJob
      ensures Valid() && totalJobs == old(totalJobs)
      ensures View() == if job.None? then old(View()) else SetCur(old(View()), job.value)
    {
      hide Numbered, Settled;
      if job.None? { return; }
      if curJob != job.value {
        prevJob := curJob;
        curJob := job.value;
      }
      prevJob := Settle();
    }

    method ResetCurJob()
      requires Valid()
      modifies `curJob, `prevJob
      ensures Valid() && totalJobs == old(totalJobs)
      ensures View() == ResetCur(old(View()))
    {
      var job := Choose();
      assert job != -1 ==> jobs[job] == View().jobs[job];
      if job != -1 {
        SetCurJob(Some(jobs[job].num));
      } else {
        curJob := 0;
        prevJob := 0;
      }
    }

    // The search of ResetCurJob.
    method Choose() returns (job: int)
      requires Valid()
      ensures -1 <= job < totalJobs
      ensures Chosen(View()) == if job == -1 then 0 else jobs[job].num
    {
      hide Numbered, ById, LastWith, StoppedAt;
      if totalJobs != 0 {
        var job1 := StoppedJob(curJob);
        if job1 != -1 { return job1; }
      }
      var job2 := StoppedJob(prevJob);
      if job2 != -1 { return job2; }
      var job3 := LastJobWithStatus(MAX_JOBS, false);
      if job3 != -1 { return job3; }
      job := LastJobWithStatus(MAX_JOBS, true);
    }

    // The job of that number if there is one and it is stopped.
    method StoppedJob(n: nat) returns (job: int)
      requires Valid()
      ensures -1 <= job < totalJobs
      ensures job != -1 <==> StoppedAt(View().jobs, n)
      ensures job != -1 ==> n != 0 && jobs[job].num == n
    {
      hide Numbered, ById, LastWith;
      if n == 0 { return -1; }
      job := GetJobByJobid(n);
      if job != -1 && !jobs[job].status.Stopped? { job := -1; }
    }

    // The free entry that AddJob takes, and the highest number in use.
    method FreeEntry() returns (i: nat, top: int)
      requires Valid()
      ensures i == totalJobs && top == Highest(View().jobs)
    {
      i, top := 0, 0;
      while i < MAX_JOBS && jobs[i].num != 0
        invariant 0 <= i <= totalJobs
        invariant top == Highest(jobs[..i])
      {
        assert jobs[..i + 1][..i] == jobs[..i];
        if jobs[i].num > top { top := jobs[i].num; }
        i := i + 1;
      }
      var k := i;
      while k < MAX_JOBS
        invariant i <= k <= MAX_JOBS && top == Highest(jobs[..i])
      {
        var n := jobs[k].num;
        if n > top { top := n; }
        k := k + 1;
      }
    }

    method AddJob(newJob: Slot) returns (job: int)
      requires Valid()
      modifies this, jobs
      ensures Valid()
      ensures View() == Added(old(View()), newJob)
      ensures job == if Full(old(View())) then -1 else old(totalJobs)
    {
      hide Numbered, SetCur, Highest;
      ghost var t := View();
      var i, top := FreeEntry();
      if i == MAX_JOBS { return -1; }
      Store(i, newJob.(num := top + 1));
      assert View() == t.(jobs := t.jobs + [newJob.(num := top + 1)]);
      SetCurJob(Some(top + 1));
      job := i;
    }

    method Store(i: nat, s: Slot)
      requires Valid() && i == totalJobs < MAX_JOBS && s.num == Highest(View().jobs) + 1
      modifies `totalJobs, jobs
      ensures Valid() && totalJobs == i + 1 && jobs[i] == s
      ensures View() == old(View()).(jobs := old(View()).jobs + [s])
    {
      ghost var was := jobs[..totalJobs];
      jobs[i] := s;
      totalJobs := totalJobs + 1;
      assert jobs[..totalJobs] == was + [s];
    }

    // The shift of RemoveJob. The highest numbers are looked up in entries that have just been
    // cleared, so none is ever found.
    method ShiftDown(job: nat) returns (last: int, lastSuspended: int)
      requires jobs.Length == MAX_JOBS && job < totalJobs <= MAX_JOBS && jobs[job].num == 0
      requires forall k :: job < k < totalJobs ==> jobs[k].num > 0
      requires forall k :: totalJobs <= k < jobs.Length ==> jobs[k].num == 0
      modifies jobs
      ensures last == 0 && lastSuspended == 0
      ensures jobs[..totalJobs - 1] == old(jobs[..job] + jobs[job + 1..totalJobs])
      ensures forall k :: totalJobs - 1 <= k < jobs.Length ==> jobs[k].num == 0
    {
      last, lastSuspended := 0, 0;
      var i, j := job, job + 1;
      while j < MAX_JOBS
        invariant i == j - 1 && job <= i < MAX_JOBS
        invariant last == 0 && lastSuspended == 0
        invariant forall k :: 0 <= k < job ==> jobs[k] == old(jobs[k])
        invariant forall k :: job <= k < i && k < totalJobs - 1 ==> jobs[k] == old(jobs[k + 1])
        invariant forall k :: totalJobs - 1 <= k <= i ==> jobs[k].num == 0
        invariant jobs[i].num == 0
        invariant forall k :: i < k < MAX_JOBS ==> jobs[k] == old(jobs[k])
      {
        if jobs[j].num != 0 {
          jobs[i] := jobs[j];
          jobs[j] := jobs[j].(num := 0, procCount := 0, childExits := 0);
          var n, stopped := jobs[j].num, jobs[j].status.Stopped?;
          if n > last { last := n; }
          if stopped && n > lastSuspended { lastSuspended := n; }
        }
        i, j := i + 1, j + 1;
      }
    }

    method RemoveJob(job: nat) returns (res: nat)
      requires Valid() && job < totalJobs
      modifies this, jobs
      ensures Valid() && totalJobs == old(totalJobs) - 1
      ensures View() == Removed(old(View()), job)
      ensures res == old(jobs[job].num)
    {
      res := jobs[job].num;
      ghost var was := jobs[..totalJobs];
      RemovedNumbered(View(), job);
      hide Numbered;
      jobs[job] := jobs[job].(num := 0, procCount := 0, childExits := 0);
      assert jobs[..job] == was[..job] && jobs[job + 1..totalJobs] == was[job + 1..];
      if res == curJob {
        curJob := prevJob;
        prevJob := 0;
      }
      var last, lastSuspended := ShiftDown(job);
      if prevJob == 0 {
        var found: int := if lastSuspended != 0 then lastSuspended else last;
        prevJob := found;
      }
      totalJobs := totalJobs - 1;
    }

    method RemoveDeadJobs()
      requires Valid()
      modifies this, jobs
      ensures Valid()
      ensures View() == Swept(old(View()), 0)
    {
      var job := 0;
      while job < MAX_JOBS
        invariant Valid() && 0 <= job <= MAX_JOBS
        invariant Swept(View(), if job < totalJobs then job else totalJobs) == Swept(old(View()), 0)
        decreases totalJobs, MAX_JOBS - job
      {
        if jobs[job].num != 0 && jobs[job].childExits == jobs[job].procCount && jobs[job].notified {
          var _ := RemoveJob(job);
          job := job - 1;
        }
        job := job + 1;
      }
    }
  }
}
