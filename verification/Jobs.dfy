/** The agent's background job tracker (internal/agent/jobs.go).

    The class keeps the source's shared records: a completing goroutine writes through the
    pointer it captured, a snapshot copies through the map. The functions describe the same
    operations on plain values; whole runs are reasoned about there. */
module Jobs {
  import opened Base

  const JOB_TIMEOUT := 20 * MINUTE
  const JOB_RETENTION := HOUR

  datatype Action = Upgrade | Pull

  datatype Phase = Running | Succeeded | Failed

  datatype Job = Job(action: Action, phase: Phase, error: string, started: int, finished: int)

  type Table = map<string, Job>

  // ---------------------------------------------------------------- values

  /** A job that was just started. */
  function Fresh(action: Action, now: int): Job {
    Job(action, Running, "", Unix(now), 0)
  }

  predicate IsRunning(jobs: Table, name: string) {
    name in jobs && jobs[name].phase == Running
  }

  function AfterStart(jobs: Table, name: string, action: Action, now: int): Option<Table> {
    if IsRunning(jobs, name) then None else Some(jobs[name := Fresh(action, now)])
  }

  /** The record of a job whose work ended with the given error, or None for success. */
  function Outcome(job: Job, err: Option<string>, now: int): Job {
    match err
    case None => job.(phase := Succeeded, finished := Unix(now))
    case Some(e) => job.(phase := Failed, error := e, finished := Unix(now))
  }

  function AfterFinish(jobs: Table, name: string, err: Option<string>, now: int): Table
    requires name in jobs
  {
    jobs[name := Outcome(jobs[name], err, now)]
  }

  predicate Expired(job: Job, now: int) {
    job.phase != Running && job.finished < Unix(now - JOB_RETENTION)
  }

  function Retained(jobs: Table, now: int): Table {
    map name | name in jobs && !Expired(jobs[name], now) :: jobs[name]
  }

  // ---------------------------------------------------------------- whole runs on values

  datatype Op =
    | DoStart(name: string, action: Action, at: int)
    | DoFinish(name: string, err: Option<string>, at: int)
    | DoSnapshot(at: int)

  /** One locked section. Only a job that is running can finish. */
  function Apply(jobs: Table, op: Op): Table {
    match op
    case DoStart(name, action, at) =>
      var r := AfterStart(jobs, name, action, at);
      if r.Some? then r.value else jobs
    case DoFinish(name, err, at) =>
      if IsRunning(jobs, name) then AfterFinish(jobs, name, err, at) else jobs
    case DoSnapshot(at) => Retained(jobs, at)
  }

  function ApplyAll(jobs: Table, ops: seq<Op>): Table
    decreases |ops|
  {
    if ops == [] then jobs else ApplyAll(Apply(jobs, ops[0]), ops[1..])
  }

  /** A finished job's outcome is reported unchanged for at least JOB_RETENTION, through any
      other operations, unless a new job is started under the same name. */
  lemma {:induction false} OutcomeIsRetained(jobs: Table, name: string, finishedAt: int, ops: seq<Op>)
    requires name in jobs && jobs[name].phase != Running && jobs[name].finished == Unix(finishedAt)
    requires forall op <- ops :: op.at <= finishedAt + JOB_RETENTION
    requires forall op <- ops :: !(op.DoStart? && op.name == name)
    ensures name in ApplyAll(jobs, ops) && ApplyAll(jobs, ops)[name] == jobs[name]
    ensures forall now :: now <= finishedAt + JOB_RETENTION ==>
      name in Retained(ApplyAll(jobs, ops), now) && Retained(ApplyAll(jobs, ops), now)[name] == jobs[name]
    decreases |ops|
  {
    if ops != [] {
      assert ops[0] in ops;
      OutcomeIsRetained(Apply(jobs, ops[0]), name, finishedAt, ops[1..]);
    }
  }

  /** A running job survives every operation but its own completion: in particular nothing
      started under its name replaces it, and no snapshot forgets it. */
  lemma {:induction false} RunningJobIsKept(jobs: Table, name: string, ops: seq<Op>)
    requires IsRunning(jobs, name)
    requires forall op <- ops :: !(op.DoFinish? && op.name == name)
    ensures IsRunning(ApplyAll(jobs, ops), name) && ApplyAll(jobs, ops)[name] == jobs[name]
    decreases |ops|
  {
    if ops != [] {
      assert ops[0] in ops;
      RunningJobIsKept(Apply(jobs, ops[0]), name, ops[1..]);
    }
  }

  /** Once an outcome is older than JOB_RETENTION plus the second lost to rounding, the next
      snapshot forgets it. */
  lemma OldOutcomeIsForgotten(jobs: Table, name: string, finishedAt: int, now: int)
    requires name in jobs && jobs[name].phase != Running && jobs[name].finished == Unix(finishedAt)
    requires now >= finishedAt + JOB_RETENTION + SECOND
    ensures name !in Retained(jobs, now)
  {
    assert now - JOB_RETENTION >= finishedAt + SECOND;
    assert Unix(finishedAt + SECOND) == Unix(finishedAt) + 1;
  }

  lemma {:induction false} ApplyAllConcat(jobs: Table, a: seq<Op>, b: seq<Op>)
    ensures ApplyAll(jobs, a + b) == ApplyAll(ApplyAll(jobs, a), b)
    decreases |a|
  {
    if a == [] {
      assert a + b == b;
    } else {
      assert (a + b)[1..] == a[1..] + b;
      ApplyAllConcat(Apply(jobs, a[0]), a[1..], b);
    }
  }

  /** From start to finish, whatever else happens meanwhile: a job is reported with its action, the
      whole seconds it started and ended at, and its error, if it failed. */
  lemma OutcomeReported(jobs: Table, name: string, action: Action, start: int, ops: seq<Op>, err: Option<string>, end: int)
    requires name in jobs ==> jobs[name].phase != Running
    requires forall op <- ops :: !(op.DoFinish? && op.name == name)
    ensures var after := ApplyAll(jobs, [DoStart(name, action, start)] + ops + [DoFinish(name, err, end)]);
      && name in after && after[name].action == action
      && after[name].started == start / 1_000_000_000 && after[name].finished == end / 1_000_000_000
      && (err.None? ==> after[name].phase == Succeeded && after[name].error == "")
      && (err.Some? ==> after[name].phase == Failed && after[name].error == err.value)
  {
    var begin, finish := DoStart(name, action, start), DoFinish(name, err, end);
    var started := Apply(jobs, begin);
    ApplyAllConcat(jobs, [begin], ops);
    ApplyAllConcat(jobs, [begin] + ops, [finish]);
    assert [begin][1..] == [] && [finish][1..] == [];
    RunningJobIsKept(started, name, ops);
    assert ApplyAll(jobs, [begin]) == ApplyAll(started, []);
    var running := ApplyAll(started, ops);
    assert ApplyAll(running, [finish]) == ApplyAll(Apply(running, finish), []);
  }

  /** A snapshot under way: of the entries in was all but todo have been looked at, kept are left,
      and out copies those of them that stay. */
  ghost predicate Examined(was: Table, kept: set<string>, out: Table, todo: set<string>, now: int) {
    && todo <= kept <= was.Keys && out.Keys == kept - todo
    && (forall n :: n in was && n !in kept ==> Expired(was[n], now))
    && (forall n :: n in kept && n !in todo ==> !Expired(was[n], now))
    && (forall n :: n in out ==> out[n] == was[n])
  }

  lemma ExaminedStart(was: Table, now: int)
    ensures Examined(was, was.Keys, map[], was.Keys, now)
  {
  }

  lemma ExaminedStep(was: Table, kept: set<string>, out: Table, todo: set<string>, now: int, name: string)
    requires Examined(was, kept, out, todo, now) && name in todo && name in was
    ensures if Expired(was[name], now) then Examined(was, kept - {name}, out, todo - {name}, now)
      else Examined(was, kept, out[name := was[name]], todo - {name}, now)
  {
  }

  lemma ExaminedAll(was: Table, kept: set<string>, out: Table, now: int)
    requires Examined(was, kept, out, {}, now)
    ensures out == Retained(was, now) && out.Keys == kept
    ensures forall n :: n in was && was[n].phase == Running ==> n in kept
  {
  }

  // ---------------------------------------------------------------- shared records

  class JobStatus {
    var action: Action
    var phase: Phase
    var error: string
    var started: int
    var finished: int

    constructor (action: Action, now: int)
      ensures Value() == Fresh(action, now)
    {
      this.action, phase, error, started, finished := action, Running, "", Unix(now), 0;
    }

    function Value(): Job
      reads this
    {
      Job(action, phase, error, started, finished)
    }
  }

  class JobTracker {
    var jobs: map<string, JobStatus>
    // The goroutines that have not completed: the name each was started under and the record
    // it captured.
    ghost var live: set<(string, JobStatus)>

    /** Distinct entries are distinct records, every live goroutine's record is the entry under
        its name, and exactly the entries marked running have a goroutine. */
    ghost predicate Valid()
      reads this, jobs.Values
    {
      && (forall m, n :: m in jobs && n in jobs && jobs[m] == jobs[n] ==> m == n)
      && (forall g :: g in live ==> g.0 in jobs && jobs[g.0] == g.1)
      && (forall n :: n in jobs ==> (jobs[n].phase == Running <==> (n, jobs[n]) in live))
    }

    ghost function Contents(): Table
      reads this, jobs.Values
    {
      map name | name in jobs :: jobs[name].Value()
    }

    constructor ()
      ensures Valid() && Contents() == map[] && live == {}
    {
      jobs := map[];
      live := {};
    }

    /** Refuses while a job under that name runs; otherwise records a new running job and hands
        its record to the goroutine. */
    method Start(name: string, action: Action, now: int) returns (job: JobStatus?)
      requires Valid()
      modifies this
      ensures Valid()
      ensures (job == null) == IsRunning(old(Contents()), name)
      ensures job == null ==> Contents() == old(Contents()) && live == old(live)
      ensures job != null ==> fresh(job) && live == old(live) + {(name, job)}
      ensures job != null ==> AfterStart(old(Contents()), name, action, now) == Some(Contents())
    {
      if name in jobs && jobs[name].phase == Running {
        return null;
      }
      job := new JobStatus(action, now);
      jobs := jobs[name := job];
      live := live + {(name, job)};
      assert forall n :: n in old(jobs) ==> old(jobs)[n] != job;
      assert Contents() == old(Contents())[name := Fresh(action, now)];
    }

    /** The goroutine's completion: it writes through the record it captured, and the outcome
        is what the table holds under its name. */
    method Complete(name: string, job: JobStatus, err: Option<string>, now: int)
      requires Valid() && (name, job) in live
      modifies this`live, job
      ensures Valid()
      ensures live == old(live) - {(name, job)} && jobs == old(jobs)
      ensures name in old(Contents())
      ensures Contents() == AfterFinish(old(Contents()), name, err, now)
    {
      job.finished := Unix(now);
      if err.Some? {
        job.phase := Failed;
        job.error := err.value;
      } else {
        job.phase := Succeeded;
      }
      live := live - {(name, job)};
    }

    method Snapshot(now: int) returns (out: Table)
      requires Valid()
      modifies this`jobs
      ensures Valid() && live == old(live)
      ensures out == Contents() == Retained(old(Contents()), now)
    {
      ghost var was := Contents();
      var cutoff := Unix(now - JOB_RETENTION);
      out := map[];
      var todo := jobs.Keys;
      hide Examined;
      ExaminedStart(was, now);
      assert jobs.Keys == was.Keys;
      while todo != {}
        invariant todo <= jobs.Keys <= was.Keys && Examined(was, jobs.Keys, out, todo, now)
        invariant forall n :: n in jobs ==> jobs[n] == old(jobs)[n] && jobs[n].Value() == was[n]
        decreases todo
      {
        var name :| name in todo;
        var j := jobs[name];
        ExaminedStep(was, jobs.Keys, out, todo, now, name);
        todo := todo - {name};
        if j.phase != Running && j.finished < cutoff {
          jobs := jobs - {name};
        } else {
          out := out[name := j.Value()];
        }
      }
      ExaminedAll(was, jobs.Keys, out, now);
      assert Contents() == out;
    }

    /** At most one goroutine per name, and each running entry is exactly one goroutine's. */
    lemma OneLiveJobPerName(g: (string, JobStatus), h: (string, JobStatus))
      requires Valid() && g in live && h in live && g.0 == h.0
      ensures g == h && IsRunning(Contents(), g.0)
    {
    }
  }
}
