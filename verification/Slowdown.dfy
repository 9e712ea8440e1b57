/** How slowly failures of one container add up in the whole system: when every failure has a
    send of its own, and when not. */
module Slowdown {
  import opened Base
  import opened Jobs
  import opened Poller
  import opened Pacing
  import opened Protocol

  // ---------------------------------------------------------------- runs of the system

  // What is allowed to happen to the container. byHand: users start upgrades of it themselves.
  // renamed: a request for another container can start its upgrade, because their names changed
  // hands. age: how old the stats are that the dashboard acts on, at most.
  datatype Limits = Limits(byHand: bool, renamed: bool, age: nat)

  /** A request that starts an upgrade of the container was sent for it. */
  predicate OwnAnswers(name: string, containers: seq<Container>, answers: seq<Answer>) {
    forall i :: 0 <= i < |answers| && i < |containers| && answers[i].Starts? && answers[i].name == name ==>
      containers[i].name == name
  }

  predicate Within(limits: Limits, name: string, s: System, published: int, step: Step) {
    match step
    case Poll(_, answers) =>
      s.now - published <= limits.age && (limits.renamed || OwnAnswers(name, s.agent.containers, answers))
    case StartByHand(n, action, _) => limits.byHand || n != name || action != Upgrade
    case _ => true
  }

  /** When the stats that the next poll acts on were published. */
  function Since(s: System, published: int, step: Step): int {
    if step.Refresh? || step.RestartAgent? then s.now else published
  }

  predicate RunWithin(limits: Limits, addr: string, name: string, s: System, published: int, steps: seq<Step>, bound: nat)
    requires Legal(addr, s, steps, bound)
    decreases |steps|
  {
    steps == [] ||
    (Within(limits, name, s, published, steps[0]) &&
     RunWithin(limits, addr, name, Next(addr, s, steps[0], bound), Since(s, published, steps[0]), steps[1..], bound))
  }

  function PublishedAfter(addr: string, s: System, published: int, steps: seq<Step>, bound: nat): int
    requires Legal(addr, s, steps, bound)
    decreases |steps|
  {
    if steps == [] then published
    else PublishedAfter(addr, Next(addr, s, steps[0], bound), Since(s, published, steps[0]), steps[1..], bound)
  }

  /** What the dashboard's polls report, in order. */
  function StepLog(addr: string, s: System, step: Step, bound: nat): seq<Entry>
    requires Enabled(s, step, bound)
  {
    match step
    case Poll(cfgs, answers) => AutoUpdate(s.poller, addr, PollRun(s, cfgs, answers)).log
    case _ => []
  }

  function LogOf(addr: string, s: System, steps: seq<Step>, bound: nat): seq<Entry>
    requires Legal(addr, s, steps, bound)
    decreases |steps|
  {
    if steps == [] then []
    else StepLog(addr, s, steps[0], bound) + LogOf(addr, Next(addr, s, steps[0], bound), steps[1..], bound)
  }

  // ---------------------------------------------------------------- separated failures

  ghost predicate Separated(es: seq<Event>) {
    forall a, b :: 0 <= a < b < |es| && IsFailure(es, a) && IsFailure(es, b) ==> SendBetween(es, a, b)
  }

  predicate FailedSinceSend(es: seq<Event>) {
    es != [] &&
    (var last := es[|es| - 1];
     last.Failure? || (!last.Sent? && FailedSinceSend(es[..|es| - 1])))
  }

  lemma {:induction false} SentAfter(es: seq<Event>, a: int)
    requires !FailedSinceSend(es) && IsFailure(es, a)
    ensures SendBetween(es + [Success(0, None)], a, |es|)
    decreases |es|
  {
    var n := |es| - 1;
    if es[n].Sent? {
      assert (es + [Success(0, None)])[n].Sent?;
    } else {
      SentAfter(es[..n], a);
      var k :| a < k < n && (es[..n] + [Success(0, None)])[k].Sent?;
      assert (es + [Success(0, None)])[k].Sent?;
    }
  }

  lemma AddToSeparated(es: seq<Event>, e: Event)
    requires Separated(es) && (e.Failure? ==> !FailedSinceSend(es))
    ensures Separated(es + [e])
    ensures FailedSinceSend(es + [e]) == (e.Failure? || (!e.Sent? && FailedSinceSend(es)))
  {
    var more := es + [e];
    assert more[..|es|] == es;
    forall a, b | 0 <= a < b < |more| && IsFailure(more, a) && IsFailure(more, b) ensures SendBetween(more, a, b) {
      assert IsFailure(es, a);
      if b < |es| {
        assert IsFailure(es, b) && SendBetween(es, a, b);
        var k :| a < k < b && es[k].Sent?;
        assert more[k].Sent?;
      } else {
        SentAfter(es, a);
        var k :| a < k < |es| && (es + [Success(0, None)])[k].Sent?;
        assert more[k].Sent?;
      }
    }
  }

  // ---------------------------------------------------------------- one run

  predicate Unseen(st: AutoState, jobs: Table, name: string) {
    name in jobs && jobs[name].action == Upgrade && jobs[name].phase == Failed && jobs[name].finished > st.seenFinished
  }

  /** A failure that can still be accounted for has its send to come before it. */
  ghost predicate Fair(st: AutoState, jobs: Table, name: string, es: seq<Event>) {
    Separated(es) && (Unseen(st, jobs, name) ==> !FailedSinceSend(es))
  }

  lemma SettleFair(st: AutoState, jobs: Table, name: string, now: int, es: seq<Event>)
    requires Fair(st, jobs, name, es) && !UpgradeRunning(jobs, name)
    ensures var (st', events) := Settle(st, jobs, name, now);
      && Fair(st', jobs, name, es + events) && !Unseen(st', jobs, name) && st'.seenFinished >= st.seenFinished
  {
    var (st', events) := Settle(st, jobs, name, now);
    if events == [] {
      assert es + events == es;
    } else {
      AddToSeparated(es, events[0]);
    }
  }

  lemma VisitFair(s: State, addr: string, visited: string, jobs: Table, now: int, name: string, es: seq<Event>)
    requires Fair(StateOf(s, Key(addr, name)), jobs, name, es)
    ensures var v := Visit(s, addr, visited, jobs, now);
      var st, st', es' := StateOf(s, Key(addr, name)), StateOf(v.state, Key(addr, name)), es + Of(Entries(visited, v.events), name);
      && Fair(st', jobs, name, es') && st'.seenFinished >= st.seenFinished
      && (v.verdict == Claim && visited == name ==> !FailedSinceSend(es') && !Unseen(st', jobs, name))
  {
    VisitEffect(s, addr, visited, jobs, now, name);
    var v, st := Visit(s, addr, visited, jobs, now), StateOf(s, Key(addr, name));
    var more := Of(Entries(visited, v.events), name);
    if visited != name || UpgradeRunning(jobs, name) {
      assert es + more == es;
    } else {
      SettleFair(st, jobs, name, now, es);
      var (settled, events) := Settle(st, jobs, name, now);
      if v.verdict == Claim {
        AddToSeparated(es + events, Sent(now));
        assert es + more == es + events + [Sent(now)];
      }
    }
  }

  lemma AnsweredFair(s: State, addr: string, posted: string, now: int, reply: Reply, jobs: Table, name: string, es: seq<Event>)
    requires Fair(StateOf(s, Key(addr, name)), jobs, name, es)
    requires posted == name ==> !FailedSinceSend(es) && !Unseen(StateOf(s, Key(addr, name)), jobs, name)
    ensures var (s', events) := Answered(s, addr, posted, now, reply);
      var st, st', es' := StateOf(s, Key(addr, name)), StateOf(s', Key(addr, name)), es + Of(Entries(posted, events), name);
      && Fair(st', jobs, name, es') && st'.seenFinished == st.seenFinished
      && (reply.Pending? ==> es' == es && s' == s)
  {
    AnsweredEffect(s, addr, posted, now, reply, name);
    var (s', events) := Answered(s, addr, posted, now, reply);
    var more := Of(Entries(posted, events), name);
    if more == [] {
      assert es + more == es;
    } else {
      AddToSeparated(es, more[0]);
    }
  }

  /** What a run leaves, on whatever snapshot. */
  ghost predicate LeavesFair(ran: Ran, addr: string, run: Run, name: string, es: seq<Event>, seen: int) {
    var st, es' := StateOf(ran.state, Key(addr, name)), es + Of(ran.log, name);
    && Fair(st, run.jobs, name, es') && st.seenFinished >= seen
    && (ran.started.Some? ==>
         && ran.started.value < |run.containers|
         && (run.containers[ran.started.value].name == name ==> !FailedSinceSend(es') && !Unseen(st, run.jobs, name)))
  }

  lemma {:induction false} RunFair(s: State, addr: string, run: Run, i: nat, name: string, es: seq<Event>)
    requires run.Valid() && i <= |run.containers|
    requires Fair(StateOf(s, Key(addr, name)), run.jobs, name, es)
    ensures LeavesFair(RunFrom(s, addr, run, i), addr, run, name, es, StateOf(s, Key(addr, name)).seenFinished)
    decreases |run.containers| - i, 1
  {
    if i == |run.containers| {
      assert es + Of([], name) == es;
    } else if !AutoUpdated(run.cfgs[i], addr, run.containers[i]) {
      RunFair(s, addr, run, i + 1, name, es);
    } else {
      var c, now := run.containers[i], run.visitAt[i];
      VisitFair(s, addr, c.name, run.jobs, now, name, es);
      var v := Visit(s, addr, c.name, run.jobs, now);
      var log := Entries(c.name, v.events);
      var es' := es + Of(log, name);
      hide Visit, Fair;
      match v.verdict
      case Stop =>
      case Skip =>
        RunFair(v.state, addr, run, i + 1, name, es');
        Regroup(es, log, RunFrom(v.state, addr, run, i + 1).log, log + RunFrom(v.state, addr, run, i + 1).log, name);
      case Claim =>
        ClaimedFair(v.state, addr, run, i, name, es, log);
    }
  }

  /** The rest of a run after a claim, whose visit reported log. */
  lemma {:induction false} ClaimedFair(s: State, addr: string, run: Run, i: nat, name: string, es: seq<Event>, log: seq<Entry>)
    requires run.Valid() && i < |run.containers|
    requires Fair(StateOf(s, Key(addr, name)), run.jobs, name, es + Of(log, name))
    requires run.containers[i].name == name ==>
      !FailedSinceSend(es + Of(log, name)) && !Unseen(StateOf(s, Key(addr, name)), run.jobs, name)
    ensures var (s', events) := Answered(s, addr, run.containers[i].name, run.visitAt[i], run.replies[i]);
      var rest := RunFrom(s', addr, run, i + 1);
      var ran := if run.replies[i].Pending? then Ran(s', log, Some(i))
        else rest.(log := log + Entries(run.containers[i].name, events) + rest.log);
      LeavesFair(ran, addr, run, name, es, StateOf(s, Key(addr, name)).seenFinished)
    decreases |run.containers| - i, 0
  {
    var posted, now, reply := run.containers[i].name, run.visitAt[i], run.replies[i];
    AnsweredFair(s, addr, posted, now, reply, run.jobs, name, es + Of(log, name));
    var (s', events) := Answered(s, addr, posted, now, reply);
    var more, rest := Entries(posted, events), RunFrom(s', addr, run, i + 1).log;
    hide Fair, Answered, RunFrom;
    if !reply.Pending? {
      Regroup(es, log, more, log + more, name);
      RunFair(s', addr, run, i + 1, name, es + Of(log + more, name));
      Regroup(es, log + more, rest, log + more + rest, name);
    }
  }

  // ---------------------------------------------------------------- the system's invariant

  /** An upgrade of the container runs, or its failure is still to be accounted for. */
  predicate Owed(st: AutoState, jobs: Table, name: string) {
    UpgradeRunning(jobs, name) || Unseen(st, jobs, name)
  }

  function BookOf(addr: string, s: System, name: string): AutoState {
    StateOf(s.poller, Key(addr, name))
  }

  /** The claim made for the job that runs or failed, younger than the stats the dashboard has. */
  predicate ClaimStands(addr: string, s: System, published: int, name: string) {
    && addr in s.poller.inFlight
    && s.poller.inFlight[addr].name == name
    && s.poller.inFlight[addr].since >= published
    && FinishedOf(s.agent.snapshot, name) <= s.poller.inFlight[addr].prevFinished
    && !Unseen(BookOf(addr, s, name), s.agent.snapshot, name)
  }

  /** The published stats show the job as it is, or as running, or are older than its claim. */
  predicate Announced(addr: string, s: System, published: int, name: string) {
    || UpgradeRunning(s.agent.snapshot, name)
    || (name in s.agent.snapshot && name in s.agent.jobs && s.agent.snapshot[name] == s.agent.jobs[name])
    || ClaimStands(addr, s, published, name)
  }

  ghost predicate Owes(addr: string, s: System, published: int, name: string, es: seq<Event>) {
    && published <= s.now
    && (name in s.agent.live <==> IsRunning(s.agent.jobs, name))
    && (Owed(BookOf(addr, s, name), s.agent.jobs, name) ==> Announced(addr, s, published, name) && !FailedSinceSend(es))
    && Fair(BookOf(addr, s, name), s.agent.snapshot, name, es)
  }

  lemma PollOwes(addr: string, s: System, published: int, name: string, es: seq<Event>,
                 cfgs: seq<Config>, answers: seq<Answer>, bound: nat, limits: Limits)
    requires Owes(addr, s, published, name, es)
    requires var step := Poll(cfgs, answers); Enabled(s, step, bound) && Within(limits, name, s, published, step)
    requires !limits.renamed && limits.age <= IN_FLIGHT_TIMEOUT
    ensures var step := Poll(cfgs, answers);
      Owes(addr, Next(addr, s, step, bound), published, name, es + Of(StepLog(addr, s, step, bound), name))
  {
    var step, run := Poll(cfgs, answers), PollRun(s, cfgs, answers);
    var s', es' := Next(addr, s, step, bound), es + Of(StepLog(addr, s, step, bound), name);
    var (claimed, busy) := AgentBusy(s.poller, addr, run.jobs, s.now);
    if busy {
      assert claimed == s.poller && s' == s;
      assert es' == es + Of([], name) == es;
    } else {
      assert Owed(BookOf(addr, s, name), s.agent.jobs, name) ==>
        name in s.agent.snapshot && s.agent.snapshot[name] == s.agent.jobs[name];
      assert StateOf(claimed, Key(addr, name)) == BookOf(addr, s, name);
      RunFair(claimed, addr, run, 0, name, es);
      var ran := RunFrom(claimed, addr, run, 0);
      if ran.started.Some? {
        RunClaims(claimed, addr, run, 0);
        var k := ran.started.value;
        hide RunFrom, AgentBusy;
        if answers[k].name == name {
          assert run.containers[k].name == name;
        }
      }
    }
  }

  lemma StepOwes(addr: string, s: System, published: int, name: string, es: seq<Event>, step: Step, bound: nat, limits: Limits)
    requires Owes(addr, s, published, name, es) && Enabled(s, step, bound) && Within(limits, name, s, published, step)
    requires !limits.byHand && !limits.renamed && limits.age <= IN_FLIGHT_TIMEOUT
    ensures Owes(addr, Next(addr, s, step, bound), Since(s, published, step), name,
                 es + Of(StepLog(addr, s, step, bound), name))
  {
    if step.Poll? {
      PollOwes(addr, s, published, name, es, step.cfgs, step.answers, bound, limits);
    } else {
      assert es + Of([], name) == es;
    }
  }

  // ---------------------------------------------------------------- main results

  ghost predicate Followed(addr: string, s: System, published: int, name: string, es: seq<Event>, start: nat) {
    Owes(addr, s, published, name, es) && Follows(s.poller, addr, name, es, start, s.now)
  }

  lemma StepFollowed(addr: string, s: System, published: int, name: string, es: seq<Event>, start: nat,
                      step: Step, bound: nat, limits: Limits)
    requires Followed(addr, s, published, name, es, start) && Enabled(s, step, bound) && Within(limits, name, s, published, step)
    requires !limits.byHand && !limits.renamed && limits.age <= IN_FLIGHT_TIMEOUT
    ensures Followed(addr, Next(addr, s, step, bound), Since(s, published, step), name,
                      es + Of(StepLog(addr, s, step, bound), name), start)
  {
    StepOwes(addr, s, published, name, es, step, bound, limits);
    hide Owes, Follows;
    if step.Poll? {
      RunFollows(s.poller, addr, PollRun(s, step.cfgs, step.answers), name, es, start, s.now, s.now);
    } else {
      FollowsLater(s.poller, addr, name, es, Of([], name), start, s.now, Next(addr, s, step, bound).now);
    }
  }

  /** From any state in which the container's failures have their sends: every run keeps it so,
      and its streaks of failures take the sum of their waits. */
  lemma {:induction false} RunIsSlow(addr: string, s: System, published: int, name: string, es: seq<Event>, start: nat,
                                     steps: seq<Step>, bound: nat, limits: Limits)
    requires Followed(addr, s, published, name, es, start)
    requires Legal(addr, s, steps, bound) && RunWithin(limits, addr, name, s, published, steps, bound)
    requires !limits.byHand && !limits.renamed && limits.age <= IN_FLIGHT_TIMEOUT
    ensures Separated(es + Of(LogOf(addr, s, steps, bound), name)) && Slowed(es + Of(LogOf(addr, s, steps, bound), name))
    decreases |steps|
  {
    if steps == [] {
      assert es + Of(LogOf(addr, s, steps, bound), name) == es;
      SeparatedIsSlow(es, start);
    } else {
      var first, s' := StepLog(addr, s, steps[0], bound), Next(addr, s, steps[0], bound);
      hide Followed, Separated, Slowed;
      StepFollowed(addr, s, published, name, es, start, steps[0], bound, limits);
      RunIsSlow(addr, s', Since(s, published, steps[0]), name, es + Of(first, name), start, steps[1..], bound, limits);
      var rest := LogOf(addr, s', steps[1..], bound);
      Regroup(es, first, rest, first + rest, name);
    }
  }

  lemma SeparatedIsSlow(es: seq<Event>, start: nat)
    requires Separated(es) && Paced(es, start)
    ensures Slowed(es)
  {
    hide Paced, Separated, InStreak, SlowFrom;
    forall i, j | InStreak(es, i, j) ensures IsFailure(es, i) && IsFailure(es, j) && SlowFrom(es, i, j) {
      SeparatedBetween(es, i, j);
      StreakTakesTime(es, start, i, j);
    }
  }

  lemma SeparatedBetween(es: seq<Event>, i: int, j: int)
    requires Separated(es) && InStreak(es, i, j)
    ensures SeparatedFrom(es, i, j) && IsFailure(es, i) && IsFailure(es, j)
  {
  }

  // ---------------------------------------------------------------- runs built step by step

  ghost predicate Shows(limits: Limits, addr: string, name: string, bound: nat, steps: seq<Step>,
                        t: System, published: int, es: seq<Event>) {
    && Legal(addr, START, steps, bound) && RunWithin(limits, addr, name, START, 0, steps, bound)
    && After(addr, START, steps, bound) == t && PublishedAfter(addr, START, 0, steps, bound) == published
    && Of(LogOf(addr, START, steps, bound), name) == es
  }

  lemma {:induction false} Extend(limits: Limits, addr: string, name: string, bound: nat, s: System, published: int,
                                  steps: seq<Step>, step: Step)
    requires Legal(addr, s, steps, bound) && RunWithin(limits, addr, name, s, published, steps, bound)
    requires var t := After(addr, s, steps, bound);
      Enabled(t, step, bound) && Within(limits, name, t, PublishedAfter(addr, s, published, steps, bound), step)
    ensures var t, more := After(addr, s, steps, bound), steps + [step];
      && Legal(addr, s, more, bound) && RunWithin(limits, addr, name, s, published, more, bound)
      && After(addr, s, more, bound) == Next(addr, t, step, bound)
      && PublishedAfter(addr, s, published, more, bound) == Since(t, PublishedAfter(addr, s, published, steps, bound), step)
      && LogOf(addr, s, more, bound) == LogOf(addr, s, steps, bound) + StepLog(addr, t, step, bound)
    decreases |steps|
  {
    var more := steps + [step];
    hide Enabled, Within, Next, Since, StepLog;
    if steps == [] {
      assert more[0] == step && more[1..] == [];
    } else {
      assert more[0] == steps[0] && more[1..] == steps[1..] + [step];
      Extend(limits, addr, name, bound, Next(addr, s, steps[0], bound), Since(s, published, steps[0]), steps[1..], step);
    }
  }

  lemma Step1(limits: Limits, addr: string, name: string, bound: nat, steps: seq<Step>, t: System, published: int,
              es: seq<Event>, step: Step)
    requires Shows(limits, addr, name, bound, steps, t, published, es)
    requires Enabled(t, step, bound) && Within(limits, name, t, published, step)
    ensures Shows(limits, addr, name, bound, steps + [step], Next(addr, t, step, bound), Since(t, published, step),
                  es + Of(StepLog(addr, t, step, bound), name))
    ensures !step.Poll? ==> es + Of(StepLog(addr, t, step, bound), name) == es
  {
    Extend(limits, addr, name, bound, START, 0, steps, step);
    OfConcat(LogOf(addr, START, steps, bound), StepLog(addr, t, step, bound), name);
  }

  function Site(name: string): Container {
    Container("c", name, "running", true)
  }

  function Only(addr: string, name: string): Config {
    Config([], map[Key(addr, name) := true])
  }

  function FailedJob(finished: int): Job {
    Job(Upgrade, Failed, "", 0, finished)
  }

  function PulledJob(finished: int): Job {
    Job(Pull, Succeeded, "", 0, finished)
  }

  /** A poll of one container that finds nothing running. */
  lemma SinglePoll(addr: string, s: System, name: string, answer: Answer, bound: nat)
    requires s.agent.containers == [Site(name)]
    requires !AgentBusy(s.poller, addr, s.agent.snapshot, s.now).1
    requires answer.Starts? ==> !IsRunning(s.agent.jobs, answer.name)
    ensures var step := Poll([Only(addr, name)], [answer]);
      var v := Visit(AgentBusy(s.poller, addr, s.agent.snapshot, s.now).0, addr, name, s.agent.snapshot, s.now);
      && Enabled(s, step, bound)
      && (v.verdict == Skip ==>
            Next(addr, s, step, bound) == System(s.now, v.state, s.agent)
            && StepLog(addr, s, step, bound) == Entries(name, v.events))
      && (v.verdict == Claim && answer.Errors? ==>
            var (refused, events) := Answered(v.state, addr, name, s.now, Refused(answer.error));
            Next(addr, s, step, bound) == System(s.now, refused, s.agent)
            && StepLog(addr, s, step, bound) == Entries(name, v.events) + Entries(name, events))
      && (v.verdict == Claim && answer.Starts? ==>
            Next(addr, s, step, bound) == System(s.now, v.state,
              Launched(s.agent, answer.name, Upgrade, answer.stamp, LiveJob(true, s.now)))
            && StepLog(addr, s, step, bound) == Entries(name, v.events))
  {
    var cfgs, answers := [Only(addr, name)], [answer];
    var run := PollRun(s, cfgs, answers);
    var claimed := AgentBusy(s.poller, addr, s.agent.snapshot, s.now).0;
    var v := Visit(claimed, addr, name, s.agent.snapshot, s.now);
    assert run.containers[0] == Site(name) && AutoUpdated(run.cfgs[0], addr, Site(name));
    assert run.replies[0] == ReplyTo(s.agent, answer) && run.visitAt[0] == s.now;
    hide AgentBusy, Visit, AutoUpdated;
    var log, ran := Entries(name, v.events), RunFrom(claimed, addr, run, 0);
    assert AutoUpdate(s.poller, addr, run) == ran;
    match v.verdict
    case Stop =>
    case Skip =>
      assert RunFrom(v.state, addr, run, 1) == Ran(v.state, [], None);
      assert log + [] == log && ran == Ran(v.state, log, None);
    case Claim =>
      var (s', events) := Answered(v.state, addr, name, s.now, run.replies[0]);
      assert RunFrom(s', addr, run, 1) == Ran(s', [], None);
      assert log + Entries(name, events) + [] == log + Entries(name, events);
      assert ran == if run.replies[0].Pending? then Ran(v.state, log, Some(0))
        else Ran(s', log + Entries(name, events), None);
  }

  /** A poll that finds the container's upgrade failed. */
  lemma SeeFailure(limits: Limits, addr: string, name: string, bound: nat, steps: seq<Step>, t: System, es: seq<Event>,
                   finished: int)
    returns (more: seq<Step>, u: System)
    requires Shows(limits, addr, name, bound, steps, t, t.now, es)
    requires t.agent.containers == [Site(name)] && !AgentBusy(t.poller, addr, t.agent.snapshot, t.now).1
    requires name in t.agent.snapshot && t.agent.snapshot[name] == FailedJob(finished)
    requires finished > BookOf(addr, t, name).seenFinished
    ensures var n := BookOf(addr, t, name).failures + 1;
      var wait := FailureBackoff(n, "");
      && u == System(t.now, State(t.poller.auto[Key(addr, name) := AutoState(Some(t.now + wait), n, finished)],
                                  t.poller.inFlight - {addr}), t.agent)
      && Shows(limits, addr, name, bound, more, u, t.now, es + [Failure(t.now, n, wait, "", Some(finished))])
  {
    var step := Poll([Only(addr, name)], [Inline]);
    var claimed := AgentBusy(t.poller, addr, t.agent.snapshot, t.now).0;
    assert claimed.auto == t.poller.auto && claimed.inFlight == t.poller.inFlight - {addr};
    SinglePoll(addr, t, name, Inline, bound);
    var v := Visit(claimed, addr, name, t.agent.snapshot, t.now);
    OfEntries(name, v.events, name);
    hide AgentBusy;
    Step1(limits, addr, name, bound, steps, t, t.now, es, step);
    more, u := steps + [step], Next(addr, t, step, bound);
  }

  /** A poll claims n, whose cooldown is over, and the agent starts an upgrade of target. */
  lemma Send(limits: Limits, addr: string, name: string, bound: nat, steps: seq<Step>, t: System, published: int,
             es: seq<Event>, n: string, target: string)
    returns (more: seq<Step>, u: System)
    requires Shows(limits, addr, name, bound, steps, t, published, es) && t.now - published <= limits.age
    requires target == name ==> limits.renamed || n == name
    requires t.agent.containers == [Site(n)] && !AgentBusy(t.poller, addr, t.agent.snapshot, t.now).1
    requires !IsRunning(t.agent.jobs, target) && Ready(addr, t, n)
    ensures u == System(t.now,
      State(t.poller.auto[Key(addr, n) := BookOf(addr, t, n).(next := Some(t.now + AUTO_COOLDOWN))],
            t.poller.inFlight[addr := InFlight(n, t.now, FinishedOf(t.agent.snapshot, n))]),
      t.agent.(jobs := t.agent.jobs[target := Fresh(Upgrade, 0)], live := t.agent.live[target := LiveJob(true, t.now)]))
    ensures Shows(limits, addr, name, bound, more, u, published, es + if n == name then [Sent(t.now)] else [])
  {
    var step := Poll([Only(addr, n)], [Starts(target, 0)]);
    var claimed := AgentBusy(t.poller, addr, t.agent.snapshot, t.now).0;
    assert claimed.inFlight == t.poller.inFlight - {addr};
    SinglePoll(addr, t, n, Starts(target, 0), bound);
    VisitClaims(t, addr, n);
    OfEntries(n, [Sent(t.now)], name);
    hide AgentBusy, Visit, Ready, AutoUpdate, AutoUpdated;
    Step1(limits, addr, name, bound, steps, t, published, es, step);
    more, u := steps + [step], Next(addr, t, step, bound);
  }

  /** No upgrade of n waits to be accounted for, and its cooldown is over. */
  predicate Ready(addr: string, t: System, n: string) {
    && (n in t.agent.snapshot ==> t.agent.snapshot[n].action == Pull)
    && (BookOf(addr, t, n).next.Some? ==> BookOf(addr, t, n).next.value <= t.now)
  }

  lemma VisitClaims(t: System, addr: string, n: string)
    requires !AgentBusy(t.poller, addr, t.agent.snapshot, t.now).1 && Ready(addr, t, n)
    ensures Visit(AgentBusy(t.poller, addr, t.agent.snapshot, t.now).0, addr, n, t.agent.snapshot, t.now) ==
      Visited(State(t.poller.auto[Key(addr, n) := BookOf(addr, t, n).(next := Some(t.now + AUTO_COOLDOWN))],
                    t.poller.inFlight[addr := InFlight(n, t.now, FinishedOf(t.agent.snapshot, n))]),
              Claim, [Sent(t.now)])
  {
    var claimed := AgentBusy(t.poller, addr, t.agent.snapshot, t.now).0;
    var f := InFlight(n, t.now, FinishedOf(t.agent.snapshot, n));
    assert claimed.inFlight[addr := f] == t.poller.inFlight[addr := f];
  }

  /** A poll claims the container and its request fails. */
  lemma BeRefused(limits: Limits, addr: string, name: string, bound: nat, steps: seq<Step>, t: System, published: int,
                  es: seq<Event>)
    returns (more: seq<Step>, u: System)
    requires Shows(limits, addr, name, bound, steps, t, published, es) && t.now - published <= limits.age
    requires t.agent.containers == [Site(name)] && !AgentBusy(t.poller, addr, t.agent.snapshot, t.now).1
    requires Ready(addr, t, name)
    ensures var st := BookOf(addr, t, name);
      var wait := FailureBackoff(st.failures + 1, "");
      && u.agent == t.agent && u.now == t.now && u.poller.inFlight == t.poller.inFlight - {addr}
      && BookOf(addr, u, name) == AutoState(Some(t.now + wait), st.failures + 1, st.seenFinished)
      && Shows(limits, addr, name, bound, more, u, published,
               es + [Sent(t.now), Failure(t.now, st.failures + 1, wait, "", None)])
  {
    var step := Poll([Only(addr, name)], [Errors("")]);
    var claimed := AgentBusy(t.poller, addr, t.agent.snapshot, t.now).0;
    assert claimed.auto == t.poller.auto && claimed.inFlight == t.poller.inFlight - {addr};
    SinglePoll(addr, t, name, Errors(""), bound);
    VisitClaims(t, addr, name);
    RefusedAfter(t, addr, name);
    var v := Visit(claimed, addr, name, t.agent.snapshot, t.now);
    var (s', events) := Answered(v.state, addr, name, t.now, Refused(""));
    hide AgentBusy, FailureBackoff, Visit, Ready, AutoUpdate, AutoUpdated, Answered;
    OfEntries(name, v.events, name);
    OfEntries(name, events, name);
    OfConcat(Entries(name, v.events), Entries(name, events), name);
    Step1(limits, addr, name, bound, steps, t, published, es, step);
    more, u := steps + [step], Next(addr, t, step, bound);
    hide Next, Shows, StepLog;
    assert es + (v.events + events) == es + [Sent(t.now), events[0]];
  }

  lemma RefusedAfter(t: System, addr: string, n: string)
    ensures var st := BookOf(addr, t, n);
      var claimed := State(t.poller.auto[Key(addr, n) := st.(next := Some(t.now + AUTO_COOLDOWN))],
                           t.poller.inFlight[addr := InFlight(n, t.now, FinishedOf(t.agent.snapshot, n))]);
      var (s', events) := Answered(claimed, addr, n, t.now, Refused(""));
      var wait := FailureBackoff(st.failures + 1, "");
      && s'.inFlight == t.poller.inFlight - {addr} && events == [Failure(t.now, st.failures + 1, wait, "", None)]
      && StateOf(s', Key(addr, n)) == AutoState(Some(t.now + wait), st.failures + 1, st.seenFinished)
  {
    hide FailureBackoff;
  }

  /** A job of n that a user starts and that ends at once. */
  lemma ByHand(limits: Limits, addr: string, name: string, bound: nat, steps: seq<Step>, t: System, published: int,
               es: seq<Event>, n: string, action: Action, err: Option<string>, finished: int)
    returns (more: seq<Step>, u: System)
    requires Shows(limits, addr, name, bound, steps, t, published, es)
    requires limits.byHand || n != name || action != Upgrade
    requires t.agent.live == map[] && !IsRunning(t.agent.jobs, n)
    ensures u == t.(agent := t.agent.(jobs := t.agent.jobs[n := Outcome(Fresh(action, 0), err, finished * SECOND)]))
    ensures Shows(limits, addr, name, bound, more, u, published, es)
  {
    var step := StartByHand(n, action, 0);
    Step1(limits, addr, name, bound, steps, t, published, es, step);
    more, u := JobEnds(limits, addr, name, bound, steps + [step], Next(addr, t, step, bound), published, es, n, action, err, finished);
    assert u.agent.jobs == t.agent.jobs[n := Outcome(Fresh(action, 0), err, finished * SECOND)];
  }

  lemma JobEnds(limits: Limits, addr: string, name: string, bound: nat, steps: seq<Step>, t: System, published: int,
                es: seq<Event>, n: string, action: Action, err: Option<string>, finished: int)
    returns (more: seq<Step>, u: System)
    requires Shows(limits, addr, name, bound, steps, t, published, es)
    requires n in t.agent.jobs && t.agent.jobs[n] == Fresh(action, 0) && t.agent.live.Keys == {n}
    ensures u == t.(agent := t.agent.(jobs := t.agent.jobs[n := Outcome(Fresh(action, 0), err, finished * SECOND)],
                                      live := map[]))
    ensures Shows(limits, addr, name, bound, more, u, published, es)
  {
    var step := FinishJob(n, err, finished * SECOND);
    Step1(limits, addr, name, bound, steps, t, published, es, step);
    assert t.agent.live - {n} == map[];
    more, u := steps + [step], Next(addr, t, step, bound);
  }

  /** The agent publishes its job table, from which nothing has expired, and one container. */
  lemma Publish(limits: Limits, addr: string, name: string, bound: nat, steps: seq<Step>, t: System, published: int,
                es: seq<Event>, n: string)
    returns (more: seq<Step>, u: System)
    requires Shows(limits, addr, name, bound, steps, t, published, es)
    requires forall m :: m in t.agent.jobs ==> t.agent.jobs[m].finished >= 0
    ensures u == t.(agent := t.agent.(containers := [Site(n)], snapshot := t.agent.jobs))
    ensures Shows(limits, addr, name, bound, more, u, t.now, es)
  {
    var step := Refresh([Site(n)], 0);
    Step1(limits, addr, name, bound, steps, t, published, es, step);
    assert Retained(t.agent.jobs, 0) == t.agent.jobs;
    more, u := steps + [step], Next(addr, t, step, bound);
  }

  lemma Wait(limits: Limits, addr: string, name: string, bound: nat, steps: seq<Step>, t: System, published: int,
             es: seq<Event>, elapsed: nat)
    returns (more: seq<Step>, u: System)
    requires Shows(limits, addr, name, bound, steps, t, published, es) && t.agent.live == map[]
    ensures u == t.(now := t.now + elapsed) && Shows(limits, addr, name, bound, more, u, published, es)
  {
    Step1(limits, addr, name, bound, steps, t, published, es, Tick(elapsed));
    more, u := steps + [Tick(elapsed)], Next(addr, t, Tick(elapsed), bound);
  }

  lemma Outcomes(finished: int)
    ensures Outcome(Fresh(Upgrade, 0), Some(""), finished * SECOND) == FailedJob(finished)
    ensures Outcome(Fresh(Pull, 0), None, finished * SECOND) == PulledJob(finished)
  {
  }

  // ---------------------------------------------------------------- the guarantee

  /** In every run of the system within the limits, n failures of the container in a row take the
      sum of the first n - 1 waits. */
  ghost predicate AlwaysSlow(addr: string, name: string, limits: Limits, bound: nat) {
    forall steps :: Legal(addr, START, steps, bound) && RunWithin(limits, addr, name, START, 0, steps, bound) ==>
      Slowed(Of(LogOf(addr, START, steps, bound), name))
  }

  /** Two failures of one streak at the same instant are not slow. */
  lemma NotSlow(limits: Limits, addr: string, name: string, bound: nat, steps: seq<Step>, t: System, es: seq<Event>, i: int)
    requires Shows(limits, addr, name, bound, steps, t, t.now, es)
    requires 0 <= i && |es| == i + 2 && es[i].Failure? && es[i + 1].Failure? && es[i].at == es[i + 1].at
    requires es[i].failures == 1 && es[i + 1].failures == 2
    ensures !AlwaysSlow(addr, name, limits, bound)
  {
    assert InStreak(es, i, i + 1);
    assert SumDoubling(0) == 0 && SumDoubling(1) == SumDoubling(0) + Doubling(1) && Doubling(1) == 10 * MINUTE;
    assert !SlowFrom(es, i, i + 1);
  }

  // ---------------------------------------------------------------- why each limit is needed

  lemma Start(limits: Limits, addr: string, name: string, bound: nat) returns (steps: seq<Step>)
    ensures Shows(limits, addr, name, bound, steps, START, 0, [])
  {
    steps := [];
  }

  /** An upgrade started by hand fails and is accounted for, and so is the next, at once. */
  lemma ByHandIsFast(addr: string, name: string, limits: Limits, bound: nat)
    requires limits.byHand
    ensures !AlwaysSlow(addr, name, limits, bound)
  {
    Outcomes(1);
    Outcomes(2);
    hide Shows, AlwaysSlow, FailureBackoff, Outcome;
    var steps := Start(limits, addr, name, bound);
    var t := START;
    var es: seq<Event> := [];
    steps, t := ByHand(limits, addr, name, bound, steps, t, 0, es, name, Upgrade, Some(""), 1);
    steps, t := Publish(limits, addr, name, bound, steps, t, 0, es, name);
    steps, t := SeeFailure(limits, addr, name, bound, steps, t, es, 1);
    es := es + [Failure(0, 1, FailureBackoff(1, ""), "", Some(1))];
    steps, t := ByHand(limits, addr, name, bound, steps, t, 0, es, name, Upgrade, Some(""), 2);
    steps, t := Publish(limits, addr, name, bound, steps, t, 0, es, name);
    steps, t := SeeFailure(limits, addr, name, bound, steps, t, es, 2);
    NotSlow(limits, addr, name, bound, steps, t, es + [Failure(0, 2, FailureBackoff(2, ""), "", Some(2))], 0);
  }

  /** The agent cannot list its containers, so the dashboard acts on old stats: the claim of a job
      that failed runs out before the failure is published, and a second request is refused. */
  lemma StaleIsFast(addr: string, name: string, limits: Limits, bound: nat)
    requires limits.age > IN_FLIGHT_TIMEOUT
    ensures !AlwaysSlow(addr, name, limits, bound)
  {
    Outcomes(1);
    hide Shows, AlwaysSlow, FailureBackoff, Outcome;
    var late := IN_FLIGHT_TIMEOUT + 1;
    var steps := Start(limits, addr, name, bound);
    var t := START;
    var es: seq<Event> := [];
    steps, t := Publish(limits, addr, name, bound, steps, t, 0, es, name);
    steps, t := Send(limits, addr, name, bound, steps, t, 0, es, name, name);
    es := es + [Sent(0)];
    steps, t := JobEnds(limits, addr, name, bound, steps, t, 0, es, name, Upgrade, Some(""), 1);
    steps, t := Wait(limits, addr, name, bound, steps, t, 0, es, late);
    steps, t := BeRefused(limits, addr, name, bound, steps, t, 0, es);
    es := es + [Sent(late), Failure(late, 1, FailureBackoff(1, ""), "", None)];
    steps, t := Publish(limits, addr, name, bound, steps, t, 0, es, name);
    steps, t := SeeFailure(limits, addr, name, bound, steps, t, es, 1);
    NotSlow(limits, addr, name, bound, steps, t, es + [Failure(late, 2, FailureBackoff(2, ""), "", Some(1))], 2);
  }

  /** A request for another container upgrades this one, which fails; then a user pulls the
      other one. */
  lemma RenamedSend(limits: Limits, addr: string, name: string, other: string, bound: nat, steps: seq<Step>, t: System,
                    es: seq<Event>, finished: int)
    returns (more: seq<Step>, u: System)
    requires limits.renamed && other != name && Shows(limits, addr, name, bound, steps, t, t.now, es)
    requires t.agent.containers == [Site(other)] && t.agent.live == map[] && t.poller.inFlight == map[]
    requires t.agent.jobs == t.agent.snapshot && Ready(addr, t, other)
    requires forall n :: n in t.agent.jobs ==> t.agent.jobs[n].phase != Running
    ensures u.now == t.now && u.poller.inFlight == map[addr := InFlight(other, t.now, FinishedOf(t.agent.snapshot, other))]
    ensures u.poller.auto == t.poller.auto[Key(addr, other) := BookOf(addr, t, other).(next := Some(t.now + AUTO_COOLDOWN))]
    ensures u.agent == t.agent.(jobs := t.agent.jobs[name := FailedJob(finished)][other := PulledJob(finished)])
    ensures Shows(limits, addr, name, bound, more, u, t.now, es)
  {
    Outcomes(finished);
    var jobs := t.agent.jobs;
    hide Shows, Outcome;
    more, u := Send(limits, addr, name, bound, steps, t, t.now, es, other, name);
    assert es + [] == es;
    hide Ready, AgentBusy;
    more, u := JobEnds(limits, addr, name, bound, more, u, t.now, es, name, Upgrade, Some(""), finished);
    assert u.agent.jobs == jobs[name := FailedJob(finished)];
    more, u := ByHand(limits, addr, name, bound, more, u, t.now, es, other, Pull, None, finished);
  }

  /** The pull ends the other container's claim, and some time later the failure is seen. */
  lemma RenamedFailure(limits: Limits, addr: string, name: string, other: string, bound: nat, steps: seq<Step>, t: System,
                       es: seq<Event>, finished: int, pause: nat)
    returns (more: seq<Step>, u: System)
    requires limits.renamed && other != name && Shows(limits, addr, name, bound, steps, t, t.now, es)
    requires t.agent.containers == [Site(other)] && t.agent.live == map[] && t.poller.inFlight == map[]
    requires t.agent.jobs == t.agent.snapshot && t.agent.jobs.Keys <= {name, other} && Ready(addr, t, other)
    requires forall n :: n in t.agent.jobs ==> t.agent.jobs[n].phase != Running && 0 <= t.agent.jobs[n].finished < finished
    requires 0 < finished && BookOf(addr, t, name).seenFinished < finished
    ensures u.now == t.now + pause && u.poller.inFlight == map[]
    ensures u.agent == Agent(t.agent.jobs[name := FailedJob(finished)][other := PulledJob(finished)], map[], [Site(name)],
                             t.agent.jobs[name := FailedJob(finished)][other := PulledJob(finished)])
    ensures BookOf(addr, u, other).next == Some(t.now + AUTO_COOLDOWN)
    ensures var k := BookOf(addr, t, name).failures + 1;
      && BookOf(addr, u, name).failures == k && BookOf(addr, u, name).seenFinished == finished
      && Shows(limits, addr, name, bound, more, u, u.now, es + [Failure(u.now, k, FailureBackoff(k, ""), "", Some(finished))])
  {
    assert Key(addr, other) != Key(addr, name) by {
      if Key(addr, other) == Key(addr, name) { KeyInjective(addr, other, name); }
    }
    hide Shows, FailureBackoff, AgentBusy;
    more, u := RenamedSend(limits, addr, name, other, bound, steps, t, es, finished);
    hide Ready;
    more, u := Wait(limits, addr, name, bound, more, u, t.now, es, pause);
    more, u := Publish(limits, addr, name, bound, more, u, t.now, es, name);
    ClaimEnds(addr, u);
    more, u := SeeFailure(limits, addr, name, bound, more, u, es, finished);
    assert u.poller.inFlight == map[];
  }

  lemma ClaimEnds(addr: string, t: System)
    requires addr in t.poller.inFlight && ShowsFinish(t.poller.inFlight[addr], t.agent.snapshot)
    requires forall m :: m in t.agent.snapshot ==> t.agent.snapshot[m].phase != Running
    ensures !AgentBusy(t.poller, addr, t.agent.snapshot, t.now).1
  {
  }

  /** That can happen twice at once, the second request as soon as the first one's cooldown ends. */
  lemma RenamedIsFast(addr: string, name: string, limits: Limits, bound: nat)
    requires limits.renamed
    ensures !AlwaysSlow(addr, name, limits, bound)
  {
    var other := name + "x";
    hide Shows, AlwaysSlow, FailureBackoff;
    var steps := Start(limits, addr, name, bound);
    var t := START;
    var es: seq<Event> := [];
    steps, t := Publish(limits, addr, name, bound, steps, t, 0, es, other);
    steps, t := RenamedFailure(limits, addr, name, other, bound, steps, t, es, 1, AUTO_COOLDOWN);
    es := es + [Failure(AUTO_COOLDOWN, 1, FailureBackoff(1, ""), "", Some(1))];
    steps, t := Publish(limits, addr, name, bound, steps, t, AUTO_COOLDOWN, es, other);
    steps, t := RenamedFailure(limits, addr, name, other, bound, steps, t, es, 2, 0);
    NotSlow(limits, addr, name, bound, steps, t, es + [Failure(AUTO_COOLDOWN, 2, FailureBackoff(2, ""), "", Some(2))], 0);
  }

  /** Failures in a row are slow exactly if users start no upgrades of the container by hand, no
      other container's request starts one, and the dashboard acts on no stats older than its
      in-flight timeout. */
  lemma AlwaysSlowExactly(addr: string, name: string, limits: Limits, bound: nat)
    ensures AlwaysSlow(addr, name, limits, bound) <==>
      !limits.byHand && !limits.renamed && limits.age <= IN_FLIGHT_TIMEOUT
  {
    if limits.byHand {
      ByHandIsFast(addr, name, limits, bound);
    } else if limits.renamed {
      RenamedIsFast(addr, name, limits, bound);
    } else if limits.age > IN_FLIGHT_TIMEOUT {
      StaleIsFast(addr, name, limits, bound);
    } else {
      forall steps | Legal(addr, START, steps, bound) && RunWithin(limits, addr, name, START, 0, steps, bound)
        ensures Slowed(Of(LogOf(addr, START, steps, bound), name))
      {
        RunIsSlow(addr, START, 0, name, [], 0, steps, bound, limits);
        assert [] + Of(LogOf(addr, START, steps, bound), name) == Of(LogOf(addr, START, steps, bound), name);
      }
    }
  }
}
