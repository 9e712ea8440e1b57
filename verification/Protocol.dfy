/** The dashboard's poller and one agent's job tracker as one transition system.

    Assumed of the steps: a refresh and a poll are atomic and the poll acts on the snapshot
    published last; a POST that fails started nothing; a job ends within a given bound. Nothing
    is assumed of the agent's clock: every timestamp it takes is a parameter of its step. */
module Protocol {
  import opened Base
  import opened Jobs
  import opened Poller

  // auto marks a job that an auto-update started; since is when, on the common clock.
  datatype LiveJob = LiveJob(auto: bool, since: int)

  datatype Agent = Agent(jobs: Table, live: map<string, LiveJob>, containers: seq<Container>, snapshot: Table)

  datatype System = System(now: int, poller: State, agent: Agent)

  // What a POST meets: the agent starts a job under the name the container has there by now, or
  // upgrades within the request (older agents), or the request fails before starting anything.
  datatype Answer = Starts(name: string, stamp: int) | Inline | Errors(error: string)

  datatype Step =
    | Refresh(containers: seq<Container>, stamp: int)
    | Poll(cfgs: seq<Config>, answers: seq<Answer>)
    | FinishJob(name: string, err: Option<string>, stamp: int)
    | StartByHand(name: string, action: Action, stamp: int)
    | RestartAgent(containers: seq<Container>)
    | Tick(elapsed: nat)

  function ReplyTo(agent: Agent, answer: Answer): Reply {
    match answer
    case Starts(name, _) => if IsRunning(agent.jobs, name) then Refused("an upgrade or pull is already running") else Pending
    case Inline => Completed
    case Errors(error) => Refused(error)
  }

  function PollRun(s: System, cfgs: seq<Config>, answers: seq<Answer>): Run
    requires |cfgs| == |answers| == |s.agent.containers|
  {
    Run(cfgs, s.agent.containers, s.agent.snapshot, s.now,
        seq(|answers|, _ => s.now),
        seq(|answers|, i requires 0 <= i < |answers| => ReplyTo(s.agent, answers[i])))
  }

  predicate Enabled(s: System, step: Step, bound: nat) {
    match step
    case Poll(cfgs, answers) => |cfgs| == |answers| == |s.agent.containers|
    case FinishJob(name, _, _) => name in s.agent.live && name in s.agent.jobs
    case Tick(elapsed) => forall name <- s.agent.live :: s.now + elapsed - s.agent.live[name].since <= bound
    case _ => true
  }

  function Launched(agent: Agent, name: string, action: Action, stamp: int, job: LiveJob): Agent {
    match AfterStart(agent.jobs, name, action, stamp)
    case None => agent
    case Some(jobs) => agent.(jobs := jobs, live := agent.live[name := job])
  }

  function Published(agent: Agent, containers: seq<Container>, stamp: int): Agent {
    var kept := Retained(agent.jobs, stamp);
    agent.(jobs := kept, containers := containers, snapshot := kept)
  }

  function Finished(agent: Agent, name: string, err: Option<string>, stamp: int): Agent
    requires name in agent.jobs
  {
    agent.(jobs := AfterFinish(agent.jobs, name, err, stamp), live := agent.live - {name})
  }

  function Next(addr: string, s: System, step: Step, bound: nat): System
    requires Enabled(s, step, bound)
  {
    match step
    case Refresh(containers, stamp) =>
      s.(agent := Published(s.agent, containers, stamp))
    case Poll(cfgs, answers) =>
      var ran := AutoUpdate(s.poller, addr, PollRun(s, cfgs, answers));
      var agent :=
        if ran.started.Some? && ran.started.value < |answers| && answers[ran.started.value].Starts? then
          var a := answers[ran.started.value];
          Launched(s.agent, a.name, Upgrade, a.stamp, LiveJob(true, s.now))
        else s.agent;
      System(s.now, ran.state, agent)
    case FinishJob(name, err, stamp) =>
      s.(agent := Finished(s.agent, name, err, stamp))
    case StartByHand(name, action, stamp) =>
      s.(agent := Launched(s.agent, name, action, stamp, LiveJob(false, s.now)))
    case RestartAgent(containers) => s.(agent := Agent(map[], map[], containers, map[]))
    case Tick(elapsed) => s.(now := s.now + elapsed)
  }

  predicate Legal(addr: string, s: System, steps: seq<Step>, bound: nat)
    decreases |steps|
  {
    steps == [] || (Enabled(s, steps[0], bound) && Legal(addr, Next(addr, s, steps[0], bound), steps[1..], bound))
  }

  function After(addr: string, s: System, steps: seq<Step>, bound: nat): System
    requires Legal(addr, s, steps, bound)
    decreases |steps|
  {
    if steps == [] then s else After(addr, Next(addr, s, steps[0], bound), steps[1..], bound)
  }

  /** Dashboard and agent have just started. */
  const START := System(0, State(map[], map[]), Agent(map[], map[], [], map[]))

  predicate AutoRunning(agent: Agent, name: string) {
    name in agent.live && agent.live[name].auto
  }

  ghost predicate AtMostOneAutoJob(agent: Agent) {
    forall m, n :: AutoRunning(agent, m) && AutoRunning(agent, n) ==> m == n
  }

  // ---------------------------------------------------------------- the invariant

  /** The dashboard's claim answers for the job: it was made when the job started, and the last
      published snapshot either predates the claim or shows the job running. */
  predicate Guarded(addr: string, s: System, name: string)
    requires name in s.agent.live
  {
    && addr in s.poller.inFlight
    && var f := s.poller.inFlight[addr];
       && f.since == s.agent.live[name].since
       && (FinishedOf(s.agent.snapshot, f.name) <= f.prevFinished || UpgradeRunning(s.agent.snapshot, name))
  }

  ghost predicate Inv(addr: string, s: System, bound: nat) {
    && (forall n :: IsRunning(s.agent.jobs, n) <==> n in s.agent.live)
    && (forall n :: n in s.agent.live ==> s.now - s.agent.live[n].since <= bound)
    && (forall n :: AutoRunning(s.agent, n) ==> s.agent.jobs[n].action == Upgrade && Guarded(addr, s, n))
    && AtMostOneAutoJob(s.agent)
  }

  /** What a run leaves claimed: nothing, or exactly the upgrade it left running. */
  lemma {:induction false} RunClaims(s: State, addr: string, run: Run, i: nat)
    requires run.Valid() && i <= |run.containers| && addr !in s.inFlight
    ensures var ran := RunFrom(s, addr, run, i);
      match ran.started
      case None => addr !in ran.state.inFlight
      case Some(k) =>
        && k < |run.containers| && run.replies[k].Pending?
        && addr in ran.state.inFlight
        && ran.state.inFlight[addr]
           == InFlight(run.containers[k].name, run.visitAt[k], FinishedOf(run.jobs, run.containers[k].name))
    decreases |run.containers| - i
  {
    if i < |run.containers| {
      var c := run.containers[i];
      if !AutoUpdated(run.cfgs[i], addr, c) {
        RunClaims(s, addr, run, i + 1);
      } else {
        var v := Visit(s, addr, c.name, run.jobs, run.visitAt[i]);
        if v.verdict == Skip {
          RunClaims(v.state, addr, run, i + 1);
        } else if v.verdict == Claim && !run.replies[i].Pending? {
          RunClaims(Answered(v.state, addr, c.name, run.visitAt[i], run.replies[i]).0, addr, run, i + 1);
        }
      }
    }
  }

  /** A poll that goes on past agentBusy finds no job an auto-update started. */
  lemma BusyWhileAutoRuns(addr: string, s: System, bound: nat, name: string)
    requires Inv(addr, s, bound) && bound <= IN_FLIGHT_TIMEOUT
    requires AutoRunning(s.agent, name)
    ensures AgentBusy(s.poller, addr, s.agent.snapshot, s.now) == (s.poller, true)
  {
    assert Guarded(addr, s, name);
    if UpgradeRunning(s.agent.snapshot, name) {
      assert name in s.agent.snapshot;
    }
  }

  lemma PollKeepsInv(addr: string, s: System, cfgs: seq<Config>, answers: seq<Answer>, bound: nat)
    requires Inv(addr, s, bound) && bound <= IN_FLIGHT_TIMEOUT
    requires |cfgs| == |answers| == |s.agent.containers|
    ensures Inv(addr, Next(addr, s, Poll(cfgs, answers), bound), bound)
  {
    var run, s' := PollRun(s, cfgs, answers), Next(addr, s, Poll(cfgs, answers), bound);
    var (claimed, busy) := AgentBusy(s.poller, addr, run.jobs, s.now);
    if exists n :: AutoRunning(s.agent, n) {
      var n :| AutoRunning(s.agent, n);
      BusyWhileAutoRuns(addr, s, bound, n);
      assert s' == s;
    } else if busy {
      assert s'.agent == s.agent && s'.now == s.now;
    } else {
      assert addr !in claimed.inFlight;
      RunClaims(claimed, addr, run, 0);
      var ran := RunFrom(claimed, addr, run, 0);
      if ran.started.Some? {
        var k := ran.started.value;
        assert run.visitAt[k] == s.now && run.replies[k] == ReplyTo(s.agent, answers[k]);
        assert s' == System(s.now, ran.state,
          Launched(s.agent, answers[k].name, Upgrade, answers[k].stamp, LiveJob(true, s.now)));
        hide RunFrom, AgentBusy;
        LaunchKeepsInv(addr, s, ran.state, answers[k].name, answers[k].stamp, bound);
      }
    }
  }

  /** Starting a job under a fresh claim, when no other auto-update job runs. */
  lemma LaunchKeepsInv(addr: string, s: System, claimed: State, name: string, stamp: int, bound: nat)
    requires Inv(addr, s, bound) && !IsRunning(s.agent.jobs, name) && (forall n :: !AutoRunning(s.agent, n))
    requires addr in claimed.inFlight
    requires var f := claimed.inFlight[addr];
      f.since == s.now && FinishedOf(s.agent.snapshot, f.name) <= f.prevFinished
    ensures Inv(addr, System(s.now, claimed, Launched(s.agent, name, Upgrade, stamp, LiveJob(true, s.now))), bound)
  {
    var agent := Launched(s.agent, name, Upgrade, stamp, LiveJob(true, s.now));
    assert forall n :: n != name ==> AutoRunning(agent, n) == AutoRunning(s.agent, n);
    assert forall n :: n != name ==> IsRunning(agent.jobs, n) == IsRunning(s.agent.jobs, n);
  }

  lemma StepKeepsInv(addr: string, s: System, step: Step, bound: nat)
    requires Inv(addr, s, bound) && bound <= IN_FLIGHT_TIMEOUT && Enabled(s, step, bound)
    ensures Inv(addr, Next(addr, s, step, bound), bound)
  {
    match step
    case Poll(cfgs, answers) => PollKeepsInv(addr, s, cfgs, answers, bound);
    case Refresh(containers, stamp) =>
    case FinishJob(name, err, stamp) =>
      assert forall n :: AutoRunning(Next(addr, s, step, bound).agent, n) ==> AutoRunning(s.agent, n);
    case StartByHand(name, action, stamp) => ByHandKeepsInv(addr, s, name, action, stamp, bound);
    case RestartAgent(containers) =>
    case Tick(elapsed) =>
  }

  lemma ByHandKeepsInv(addr: string, s: System, name: string, action: Action, stamp: int, bound: nat)
    requires Inv(addr, s, bound)
    ensures Inv(addr, Next(addr, s, StartByHand(name, action, stamp), bound), bound)
  {
    var agent := Launched(s.agent, name, action, stamp, LiveJob(false, s.now));
    assert IsRunning(s.agent.jobs, name) <==> name in s.agent.live;
    assert forall n :: n != name ==> IsRunning(agent.jobs, n) == IsRunning(s.agent.jobs, n);
    assert forall n :: AutoRunning(agent, n) ==> AutoRunning(s.agent, n);
  }

  // ---------------------------------------------------------------- main results

  /** In every reachable state at most one running job was started by an auto-update, provided
      no job can outlive the dashboard's claim. */
  lemma {:induction false} OneAutoJobAtATime(addr: string, s: System, steps: seq<Step>, bound: nat)
    requires Inv(addr, s, bound) && bound <= IN_FLIGHT_TIMEOUT && Legal(addr, s, steps, bound)
    ensures AtMostOneAutoJob(After(addr, s, steps, bound).agent)
    decreases |steps|
  {
    if steps != [] {
      StepKeepsInv(addr, s, steps[0], bound);
      OneAutoJobAtATime(addr, Next(addr, s, steps[0], bound), steps[1..], bound);
    }
  }

  ghost predicate Safe(addr: string, bound: nat) {
    forall steps :: Legal(addr, START, steps, bound) ==> AtMostOneAutoJob(After(addr, START, steps, bound).agent)
  }

  /** The timeout's margin is what the guarantee rests on, to the nanosecond: it holds of every
      run exactly when jobs end within the dashboard's in-flight timeout. */
  lemma SafeExactlyWithinTimeout(addr: string, bound: nat)
    ensures Safe(addr, bound) <==> bound <= IN_FLIGHT_TIMEOUT
  {
    if bound <= IN_FLIGHT_TIMEOUT {
      forall steps | Legal(addr, START, steps, bound)
        ensures AtMostOneAutoJob(After(addr, START, steps, bound).agent)
      {
        OneAutoJobAtATime(addr, START, steps, bound);
      }
    } else {
      OutlivedClaim(addr, bound);
    }
  }

  /** With the source's own constants: the agent ends a job within JOB_TIMEOUT, and its rollback
      may take two minutes more. */
  lemma SafeAsConfigured(addr: string)
    ensures Safe(addr, JOB_TIMEOUT + 2 * MINUTE)
  {
    SafeExactlyWithinTimeout(addr, JOB_TIMEOUT + 2 * MINUTE);
  }

  // ---------------------------------------------------------------- a run that outlives its claim

  const WEB := Container("c1", "web", "running", true)
  const DB := Container("c2", "db", "running", true)

  function BothEnabled(addr: string): Config {
    Config([], map[Key(addr, "web") := true, Key(addr, "db") := true])
  }

  function Outliving(addr: string): seq<Step> {
    var cfg := BothEnabled(addr);
    [Refresh([WEB, DB], 0),
     Poll([cfg, cfg], [Starts("web", 0), Errors("")]),
     Tick(IN_FLIGHT_TIMEOUT + 1),
     Poll([cfg, cfg], [Starts("web", 0), Starts("db", 0)])]
  }

  lemma OutlivedClaim(addr: string, bound: nat)
    requires bound > IN_FLIGHT_TIMEOUT
    ensures Legal(addr, START, Outliving(addr), bound)
    ensures !AtMostOneAutoJob(After(addr, START, Outliving(addr), bound).agent)
  {
    var cfg, steps := BothEnabled(addr), Outliving(addr);
    assert |Key(addr, "web")| != |Key(addr, "db")|;
    var s1 := Next(addr, START, steps[0], bound);
    assert s1.agent.snapshot == map[] && s1.agent.jobs == map[];
    FirstPoll(addr, s1, bound);
    var s2 := Next(addr, s1, steps[1], bound);
    var s3 := Next(addr, s2, steps[2], bound);
    SecondPoll(addr, s3, bound);
    var s4 := Next(addr, s3, steps[3], bound);
    assert AutoRunning(s4.agent, "web") && AutoRunning(s4.agent, "db") && "web" != "db";
    assert steps[1..][0] == steps[1] && steps[1..][1..] == steps[2..];
    assert steps[2..][0] == steps[2] && steps[2..][1..] == steps[3..];
    assert steps[3..][0] == steps[3] && steps[3..][1..] == [];
    assert Legal(addr, s4, [], bound) && After(addr, s4, [], bound) == s4;
    assert Legal(addr, s3, steps[3..], bound) && After(addr, s3, steps[3..], bound) == s4;
    assert Legal(addr, s2, steps[2..], bound) && After(addr, s2, steps[2..], bound) == s4;
    assert Legal(addr, s1, steps[1..], bound) && After(addr, s1, steps[1..], bound) == s4;
  }

  lemma FirstPoll(addr: string, s: System, bound: nat)
    requires s == System(0, State(map[], map[]), Agent(map[], map[], [WEB, DB], map[]))
    ensures Next(addr, s, Poll([BothEnabled(addr), BothEnabled(addr)], [Starts("web", 0), Errors("")]), bound)
         == System(0, State(map[Key(addr, "web") := AutoState(Some(AUTO_COOLDOWN), 0, 0)],
                            map[addr := InFlight("web", 0, 0)]),
                   Agent(map["web" := Fresh(Upgrade, 0)], map["web" := LiveJob(true, 0)], [WEB, DB], map[]))
  {
    var run := PollRun(s, [BothEnabled(addr), BothEnabled(addr)], [Starts("web", 0), Errors("")]);
    assert run.containers[0] == WEB && AutoUpdated(run.cfgs[0], addr, WEB);
    assert run.replies[0] == Pending && run.visitAt[0] == 0;
    var v := Visit(s.poller, addr, "web", run.jobs, 0);
    assert v.verdict == Claim;
    assert RunFrom(s.poller, addr, run, 0).started == Some(0);
  }

  lemma SecondPoll(addr: string, s: System, bound: nat)
    requires Key(addr, "web") != Key(addr, "db")
    requires s == System(IN_FLIGHT_TIMEOUT + 1,
                         State(map[Key(addr, "web") := AutoState(Some(AUTO_COOLDOWN), 0, 0)],
                               map[addr := InFlight("web", 0, 0)]),
                         Agent(map["web" := Fresh(Upgrade, 0)], map["web" := LiveJob(true, 0)], [WEB, DB], map[]))
    ensures var s' := Next(addr, s, Poll([BothEnabled(addr), BothEnabled(addr)], [Starts("web", 0), Starts("db", 0)]), bound);
      AutoRunning(s'.agent, "web") && AutoRunning(s'.agent, "db")
  {
    var answers := [Starts("web", 0), Starts("db", 0)];
    var run := PollRun(s, [BothEnabled(addr), BothEnabled(addr)], answers);
    var (p0, busy) := AgentBusy(s.poller, addr, run.jobs, s.now);
    assert !busy && addr !in p0.inFlight;
    assert run.containers[0] == WEB && run.containers[1] == DB;
    assert AutoUpdated(run.cfgs[0], addr, WEB) && AutoUpdated(run.cfgs[1], addr, DB);
    assert run.visitAt[0] == run.visitAt[1] == s.now;
    assert run.replies[0].Refused? && run.replies[1] == Pending;
    var v0 := Visit(p0, addr, "web", run.jobs, s.now);
    assert v0.verdict == Claim;
    var p1 := Answered(v0.state, addr, "web", s.now, run.replies[0]).0;
    assert StateOf(p1, Key(addr, "db")) == AutoState(None, 0, 0) && addr !in p1.inFlight;
    var v1 := Visit(p1, addr, "db", run.jobs, s.now);
    assert v1.verdict == Claim;
    assert RunFrom(p1, addr, run, 1).started == Some(1);
    assert RunFrom(p0, addr, run, 0).started == Some(1);
  }
}
