/** The processes of one job: which have been added, what they last reported and how many of
    them have terminated. */
module Processes {
  import opened Basics

  // A wait status.
  datatype Status = Exited(code: int) | Signaled(sig: int) | Stopped(sig: int) | Continued

  predicate Terminated(s: Status) { s.Exited? || s.Signaled? }

  const MAX_PROCESS_PER_JOB: nat := 32

  /** A job's processes. bits is `child_exitbits`: the positions of the processes whose last
      status was a termination; codes holds the last status of each position that has one. */
  datatype Job = Job(pgid: int, pids: seq<int>, codes: map<nat, Status>, bits: set<nat>, exits: nat, notified: bool)

  const FRESH := Job(0, [], map[], {}, 0, false)

  /** The position of pid among the first processes, or their number when it is not there. */
  function Find(pids: seq<int>, pid: int): (i: nat)
    ensures i <= |pids| && forall k :: 0 <= k < i ==> pids[k] != pid
    ensures i < |pids| ==> pids[i] == pid
  {
    if pids == [] || pids[0] == pid then 0 else 1 + Find(pids[1..], pid)
  }

  // add_pid_to_job; the first process of a job that has no group yet becomes its leader.
  function AddPid(j: Job, pid: int): Job {
    if j.pgid == 0 then j.(pgid := pid, pids := [pid])
    else if pid in j.pids || |j.pids| >= MAX_PROCESS_PER_JOB then j
    else j.(pids := j.pids + [pid])
  }

  // The counting loop of set_pid_exit_status.
  function CountBits(bits: set<nat>, n: nat): nat {
    if n == 0 then 0 else CountBits(bits, n - 1) + if n - 1 in bits then 1 else 0
  }

  function MarkAt(j: Job, i: nat, s: Status): Job {
    j.(codes := j.codes[i := s], bits := if Terminated(s) then j.bits + {i} else j.bits - {i})
  }

  function Recount(j: Job): Job { j.(exits := CountBits(j.bits, |j.pids|), notified := false) }

  // set_pid_exit_status
  function Report(j: Job, pid: int, s: Status): Job {
    var i := Find(j.pids, pid);
    Recount(if i < |j.pids| then MarkAt(j, i, s) else j)
  }

  /** The used entries of `pids` are distinct and non-zero; the bits are exactly the positions
      whose last status was a termination, and exits counts them. */
  ghost predicate Valid(j: Job) {
    && |j.pids| <= MAX_PROCESS_PER_JOB
    && (forall i :: 0 <= i < |j.pids| ==> j.pids[i] != 0)
    && (forall i, k :: 0 <= i < k < |j.pids| ==> j.pids[i] != j.pids[k])
    && (j.pgid == 0 ==> j.pids == [])
    && (forall i :: i in j.codes ==> i < |j.pids|)
    && (forall i :: i in j.bits <==> i in j.codes && Terminated(j.codes[i]))
    && j.exits == CountBits(j.bits, |j.pids|)
  }

  lemma {:induction false} CountWithin(bits: set<nat>, n: nat, m: nat)
    requires n <= m && forall i :: i in bits ==> i < n
    ensures CountBits(bits, m) == CountBits(bits, n)
    decreases m
  {
    if m > n { CountWithin(bits, n, m - 1); }
  }

  lemma {:induction false} CountAll(bits: set<nat>, n: nat)
    ensures CountBits(bits, n) <= n
    ensures CountBits(bits, n) == n <==> forall i :: 0 <= i < n ==> i in bits
  {
    if n > 0 { CountAll(bits, n - 1); }
  }

  lemma FindUnique(pids: seq<int>, i: nat)
    requires i < |pids| && forall k, l :: 0 <= k < l < |pids| ==> pids[k] != pids[l]
    ensures Find(pids, pids[i]) == i
  {
  }

  lemma AddValid(j: Job, pid: int)
    requires Valid(j) && pid != 0
    ensures Valid(AddPid(j, pid))
  {
    var j' := AddPid(j, pid);
    if j.pgid == 0 {
      assert CountBits(j.bits, 1) == 0;
    } else if j'.pids != j.pids {
      CountWithin(j.bits, |j.pids|, |j'.pids|);
    }
  }

  lemma ReportValid(j: Job, pid: int, s: Status)
    requires Valid(j)
    ensures Valid(Report(j, pid, s))
  {
  }

  /* ----- whole histories ----- */

  datatype Op = Add(pid: int) | Reported(pid: int, s: Status)

  function Apply(j: Job, op: Op): Job {
    match op
    case Add(p) => AddPid(j, p)
    case Reported(p, s) => Report(j, p, s)
  }

  function History(j: Job, ops: seq<Op>): Job {
    if ops == [] then j else Apply(History(j, ops[..|ops| - 1]), ops[|ops| - 1])
  }

  /* ----- what a history comes to, read off the operations alone ----- */

  // The processes added, each once, in the order of their first additions.
  function FirstAdded(ops: seq<Op>): seq<int> {
    if ops == [] then []
    else
      var before, op := FirstAdded(ops[..|ops| - 1]), ops[|ops| - 1];
      if op.Add? && op.pid !in before then before + [op.pid] else before
  }

  // A job takes 32 of them.
  function Members(ops: seq<Op>): seq<int> {
    if |FirstAdded(ops)| <= 32 then FirstAdded(ops) else FirstAdded(ops)[..32]
  }

  /** The last status reported of a process since it became a member. */
  function LastReport(ops: seq<Op>, pid: int): Option<Status> {
    if ops == [] then None
    else
      var before, op := ops[..|ops| - 1], ops[|ops| - 1];
      if op.Reported? && op.pid == pid && pid in Members(before) then Some(op.s) else LastReport(before, pid)
  }

  ghost predicate Additions(ops: seq<Op>) { forall op :: op in ops ==> op.Add? ==> op.pid != 0 }

  lemma {:induction false} HistoryValid(j0: Job, ops: seq<Op>)
    requires Valid(j0) && Additions(ops)
    ensures Valid(History(j0, ops))
    decreases |ops|
  {
    if ops != [] {
      var before, op := ops[..|ops| - 1], ops[|ops| - 1];
      HistoryValid(j0, before);
      assert op in ops;
      match op
      case Add(p) => AddValid(History(j0, before), p);
      case Reported(p, s) => ReportValid(History(j0, before), p, s);
    }
  }

  /** A job consists of the first 32 processes added to it, in order; its group is the first of
      them unless it had one before. */
  lemma {:induction false} HistoryMembers(pgid: int, ops: seq<Op>)
    requires Additions(ops)
    ensures var j := History(FRESH.(pgid := pgid), ops);
            && j.pids == Members(ops)
            && j.pgid == if pgid == 0 && FirstAdded(ops) != [] then FirstAdded(ops)[0] else pgid
    decreases |ops|
  {
    var j0 := FRESH.(pgid := pgid);
    if ops != [] {
      var before, op := ops[..|ops| - 1], ops[|ops| - 1];
      assert op in ops;
      HistoryMembers(pgid, before);
      HistoryValid(j0, before);
      AddedNonzero(before);
      var j := History(j0, before);
      match op
      case Add(p) => AddMember(j, before, p, pgid);
      case Reported(p, s) =>
    }
  }

  lemma {:induction false} AddedNonzero(ops: seq<Op>)
    requires Additions(ops)
    ensures forall p :: p in FirstAdded(ops) ==> p != 0
    decreases |ops|
  {
    if ops != [] {
      assert ops[|ops| - 1] in ops;
      AddedNonzero(ops[..|ops| - 1]);
    }
  }

  lemma AddMember(j: Job, before: seq<Op>, p: int, pgid: int)
    requires p != 0 && j.pids == Members(before) && forall q :: q in FirstAdded(before) ==> q != 0
    requires j.pgid == if pgid == 0 && FirstAdded(before) != [] then FirstAdded(before)[0] else pgid
    ensures var ops := before + [Add(p)];
            && AddPid(j, p).pids == Members(ops)
            && AddPid(j, p).pgid == if pgid == 0 && FirstAdded(ops) != [] then FirstAdded(ops)[0] else pgid
  {
    var ops := before + [Add(p)];
    assert ops[..|before|] == before;
    var a := FirstAdded(before);
    assert FirstAdded(ops) == if p in a then a else a + [p];
    if a != [] { assert a[0] in a; }
  }

  // The status kept of a member is the last one reported.
  predicate Tells(ops: seq<Op>, j: Job, i: nat)
    requires i < |j.pids|
  {
    LastReport(ops, j.pids[i]) == if i in j.codes then Some(j.codes[i]) else None
  }

  /** What codes says of every member is its last report. */
  predicate Faithful(ops: seq<Op>, j: Job) { forall i :: 0 <= i < |j.pids| ==> Tells(ops, j, i) }

  lemma {:induction false} LastReportMember(ops: seq<Op>, pid: int)
    requires LastReport(ops, pid).Some?
    ensures pid in Members(ops)
    decreases |ops|
  {
    var before, op := ops[..|ops| - 1], ops[|ops| - 1];
    if !(op.Reported? && op.pid == pid && pid in Members(before)) { LastReportMember(before, pid); }
  }

  lemma {:induction false} HistoryFaithful(pgid: int, ops: seq<Op>)
    requires Additions(ops)
    ensures Faithful(ops, History(FRESH.(pgid := pgid), ops))
    decreases |ops|
  {
    var j0 := FRESH.(pgid := pgid);
    if ops != [] {
      var before, op := ops[..|ops| - 1], ops[|ops| - 1];
      HistoryFaithful(pgid, before);
      HistoryValid(j0, before);
      HistoryMembers(pgid, before);
      var j, j' := History(j0, before), History(j0, ops);
      assert ops == before + [op];
      forall i | 0 <= i < |j'.pids| ensures Tells(ops, j', i) {
        match op
        case Add(p) => AddTells(j, before, p, i);
        case Reported(p, s) => ReportTells(j, before, p, s, i);
      }
    }
  }

  lemma ReportTells(j: Job, before: seq<Op>, pid: int, s: Status, i: nat)
    requires Faithful(before, j) && Valid(j) && i < |j.pids| && j.pids == Members(before)
    ensures Tells(before + [Reported(pid, s)], Report(j, pid, s), i)
  {
    hide CountBits, Members;
    var ops := before + [Reported(pid, s)];
    assert ops[..|before|] == before;
    FindUnique(j.pids, i);
    assert Tells(before, j, i);
  }

  lemma AddTells(j: Job, before: seq<Op>, pid: int, i: nat)
    requires Faithful(before, j) && Valid(j) && i < |AddPid(j, pid).pids| && j.pids == Members(before)
    ensures Tells(before + [Add(pid)], AddPid(j, pid), i)
  {
    hide CountBits, Members;
    var ops := before + [Add(pid)];
    assert ops[..|before|] == before;
    if i < |j.pids| {
      assert Tells(before, j, i);
    } else if LastReport(before, pid).Some? {
      LastReportMember(before, pid);
    }
  }

  // The last status reported of a process is a termination.
  predicate Ended(ops: seq<Op>, pid: int) {
    var r := LastReport(ops, pid);
    r.Some? && (r.value.Exited? || r.value.Signaled?)
  }

  /** After any sequence of additions and reports, whatever group the job began with, the job has
      proc_count members, the first 32 processes added, and `child_exits` has reached that number
      exactly when the last status reported of each of these was a termination. */
  lemma AllTerminated(pgid: int, ops: seq<Op>)
    requires Additions(ops)
    ensures var j := History(FRESH.(pgid := pgid), ops);
            && Valid(j) && |j.pids| == |Members(ops)|
            && (j.exits == |Members(ops)| <==> forall p :: p in Members(ops) ==> Ended(ops, p))
  {
    var j0 := FRESH.(pgid := pgid);
    HistoryValid(j0, ops);
    HistoryFaithful(pgid, ops);
    HistoryMembers(pgid, ops);
    var j, m := History(j0, ops), Members(ops);
    CountAll(j.bits, |m|);
    forall i | 0 <= i < |m| ensures Ended(ops, m[i]) <==> i in j.bits {
      assert Tells(ops, j, i);
    }
    assert (forall p :: p in m ==> Ended(ops, p)) <==> (forall i :: 0 <= i < |m| ==> Ended(ops, m[i]));
  }

  /** After a report the user has to be notified of the job again; an addition changes nothing
      about that. */
  lemma ReportUnnotified(j: Job, pid: int, s: Status)
    ensures !Report(j, pid, s).notified && AddPid(j, pid).notified == j.notified
  {}

  /* ----- the code: two fixed arrays, a bit map and counters ----- */

  class JobCell {
    var pgid: int
    const pids: array<int>
    const exitCodes: array<Status>
    var procCount: nat
    var childExitbits: set<nat>
    var childExits: nat
    var notified: bool
    ghost var known: set<nat> // the positions whose exit code has been reported

    ghost predicate Shaped()
      reads this, pids
    {
      && pids.Length == MAX_PROCESS_PER_JOB && exitCodes.Length == MAX_PROCESS_PER_JOB
      && procCount <= MAX_PROCESS_PER_JOB
      && (forall i :: procCount <= i < pids.Length ==> pids[i] == 0)
      && (forall i :: i in known ==> i < procCount)
    }

    ghost predicate Ok()
      reads this, pids, exitCodes
    {
      Shaped() && Valid(Value())
    }

    ghost function Value(): Job
      reads this, pids, exitCodes
    {
      Job(pgid, if procCount <= pids.Length then pids[..procCount] else [],
          map i | i in known && i < exitCodes.Length :: exitCodes[i], childExitbits, childExits, notified)
    }

    constructor (pgid: int)
      ensures Ok() && Value() == FRESH.(pgid := pgid)
      ensures fresh(pids) && fresh(exitCodes)
    {
      this.pgid := pgid;
      pids := new int[MAX_PROCESS_PER_JOB](_ => 0);
      exitCodes := new Status[MAX_PROCESS_PER_JOB](_ => Exited(0));
      procCount, childExitbits, childExits, notified, known := 0, {}, 0, false, {};
    }

    method AddPidToJob(pid: int)
      requires Ok() && pid != 0
      modifies this, pids
      ensures Ok() && Value() == AddPid(old(Value()), pid)
    {
      ghost var j := Value();
      AddValid(j, pid);
      hide Valid, CountBits;
      if pgid == 0 {
        pgid := pid;
        pids[0] := pid;
        procCount := 1;
        assert pids[..procCount] == [pid];
        return;
      }
      for i := 0 to procCount
        invariant forall k :: 0 <= k < i ==> pids[k] != pid
      {
        if pids[i] == pid {
          assert pid in j.pids;
          return;
        }
      }
      assert pid !in j.pids;
      for i := 0 to MAX_PROCESS_PER_JOB
        invariant forall k :: 0 <= k < i ==> pids[k] != 0
        invariant i <= procCount
      {
        assert i < procCount ==> pids[i] == j.pids[i];
        if pids[i] == 0 {
          pids[i] := pid;
          procCount := procCount + 1;
          assert pids[..procCount] == j.pids + [pid];
          return;
        }
      }
    }

    // The loop that looks for the process.
    method Position(pid: int) returns (i: nat)
      requires Ok()
      ensures i == Find(pids[..procCount], pid)
    {
      i := 0;
      while i < procCount && pids[i] != pid
        invariant i <= Find(pids[..procCount], pid)
      {
        assert pids[i] == pids[..procCount][i];
        i := i + 1;
      }
      if i < procCount { assert pids[i] == pids[..procCount][i]; }
    }

    // The loop that counts the children that exited.
    method CountExits() returns (n: nat)
      ensures n == CountBits(childExitbits, procCount)
    {
      n := 0;
      for k := 0 to procCount
        invariant n == CountBits(childExitbits, k)
      {
        if k in childExitbits { n := n + 1; }
      }
    }

    // The exit code and the bit of one process.
    method Mark(i: nat, status: Status)
      requires Shaped() && i < procCount
      modifies `childExitbits, `known, exitCodes
      ensures Shaped() && Value() == MarkAt(old(Value()), i, status)
    {
      exitCodes[i] := status;
      known := known + {i};
      if Terminated(status) {
        childExitbits := childExitbits + {i};
      } else {
        childExitbits := childExitbits - {i};
      }
    }

    method Finish()
      requires Shaped()
      modifies `notified, `childExits
      ensures Shaped() && Value() == Recount(old(Value()))
    {
      notified := false;
      childExits := CountExits();
    }

    method SetPidExitStatus(pid: int, status: Status)
      requires Ok()
      modifies this, exitCodes
      ensures Ok() && Value() == Report(old(Value()), pid, status)
    {
      ReportValid(Value(), pid, status);
      hide Valid, CountBits, Find, MarkAt, Recount;
      var i := Position(pid);
      if i < procCount { Mark(i, status); }
      Finish();
    }
  
    // job->flags |= JOB_FLAG_NOTIFIED
    method SetNotified()
      requires Ok()
      modifies `notified
      ensures Ok() && Value() == old(Value()).(notified := true)
    {
      notified := true;
    }
  }
}
