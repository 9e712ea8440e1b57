/** What one auto-update run starts, in terms of the stats it is given, the settings and the
    bookkeeping (internal/dashboard/poller.go). */
module Starting {
  import opened Base
  import opened Jobs
  import opened Poller
  import opened Pacing
  import Protocol
  import Interleaving

  // ---------------------------------------------------------------- nothing beside a running upgrade

  /** Nothing new starts while the stats show any upgrade running, whoever started it; claims and
      bookkeeping stay as they are. */
  lemma RunningUpgradeStopsRun(s: State, addr: string, run: Run, name: string)
    requires run.Valid()
    requires name in run.jobs && run.jobs[name].action == Upgrade && run.jobs[name].phase == Running
    ensures AutoUpdate(s, addr, run) == Ran(s, [], None)
  {
    assert UpgradeRunning(run.jobs, name);
  }

  /** In the whole system a poll on such stats changes nothing. */
  lemma RunningUpgradeStopsPoll(addr: string, s: Protocol.System, cfgs: seq<Config>, answers: seq<Protocol.Answer>,
                                bound: nat, name: string)
    requires Protocol.Enabled(s, Protocol.Poll(cfgs, answers), bound)
    requires name in s.agent.snapshot && s.agent.snapshot[name].action == Upgrade && s.agent.snapshot[name].phase == Running
    ensures Protocol.Next(addr, s, Protocol.Poll(cfgs, answers), bound) == s
  {
    RunningUpgradeStopsRun(s.poller, addr, Protocol.PollRun(s, cfgs, answers), name);
  }

  /** Nor does a run that enters among others. */
  lemma RunningUpgradeStopsEntry(addr: string, w: Interleaving.World, id: nat, name: string)
    requires Interleaving.Possible(w, Interleaving.Enter(id))
    requires var jobs := w.threads[id].input.jobs;
      name in jobs && jobs[name].action == Upgrade && jobs[name].phase == Running
    ensures Interleaving.Next(addr, w, Interleaving.Enter(id))
         == w.(threads := w.threads[id := Interleaving.Ended])
  {
    assert UpgradeRunning(w.threads[id].input.jobs, name);
  }

  // ---------------------------------------------------------------- only what may be updated

  /** The container runs, has an update, and the settings read for it allow the update. */
  ghost predicate MayUpdate(addr: string, run: Run, i: nat)
    requires run.Valid() && i < |run.containers|
  {
    && run.containers[i].state == "running" && run.containers[i].updateAvailable
    && (forall j :: 0 <= j < |run.cfgs[i].protected| ==> run.cfgs[i].protected[j] != run.containers[i].name)
    && addr + "::" + run.containers[i].name in run.cfgs[i].autoUpdate
    && run.cfgs[i].autoUpdate[addr + "::" + run.containers[i].name]
  }

  lemma UpdatedExactly(addr: string, run: Run, i: nat)
    requires run.Valid() && i < |run.containers|
    ensures AutoUpdated(run.cfgs[i], addr, run.containers[i]) <==> MayUpdate(addr, run, i)
  {
  }

  /** Every send is of a container that may be updated, at the reading taken for it. */
  ghost predicate SentFor(addr: string, run: Run, e: Entry)
    requires run.Valid()
  {
    exists i: nat :: i < |run.containers| && MayUpdate(addr, run, i)
      && run.containers[i].name == e.name && run.visitAt[i] == e.event.at
  }

  ghost predicate SendsAllowed(addr: string, run: Run, log: seq<Entry>)
    requires run.Valid()
  {
    forall e :: e in log && e.event.Sent? ==> SentFor(addr, run, e)
  }

  lemma {:induction false} RunFromSendsAllowed(s: State, addr: string, run: Run, i: nat)
    requires run.Valid() && i <= |run.containers|
    ensures SendsAllowed(addr, run, RunFrom(s, addr, run, i).log)
    ensures var started := RunFrom(s, addr, run, i).started;
      started.Some? ==> started.value < |run.containers| && MayUpdate(addr, run, started.value)
    decreases |run.containers| - i
  {
    if i < |run.containers| {
      var c, now := run.containers[i], run.visitAt[i];
      UpdatedExactly(addr, run, i);
      if !AutoUpdated(run.cfgs[i], addr, c) {
        RunFromSendsAllowed(s, addr, run, i + 1);
      } else {
        var v := Visit(s, addr, c.name, run.jobs, now);
        assert SendsAllowed(addr, run, Entries(c.name, v.events)) by {
          VisitTimes(s, addr, c.name, run.jobs, now);
          hide Visit, MayUpdate;
          forall e | e in Entries(c.name, v.events) && e.event.Sent? ensures SentFor(addr, run, e) {
            assert run.containers[i].name == e.name;
          }
        }
        var (s', events) := Answered(v.state, addr, c.name, now, run.replies[i]);
        assert SendsAllowed(addr, run, Entries(c.name, events));
        hide Visit, Answered, MayUpdate, AutoUpdated;
        match v.verdict
        case Stop =>
        case Skip => RunFromSendsAllowed(v.state, addr, run, i + 1);
        case Claim =>
          if !run.replies[i].Pending? {
            RunFromSendsAllowed(s', addr, run, i + 1);
          }
      }
    }
  }

  lemma VisitTimes(s: State, addr: string, name: string, jobs: Table, now: int)
    ensures forall e :: e in Visit(s, addr, name, jobs, now).events ==> e.at == now
  {
  }

  /** A run sends requests only for containers that run, have an update, are not protected and are
      set to update by themselves. */
  lemma OnlyAllowedAreSent(s: State, addr: string, run: Run)
    requires run.Valid()
    ensures SendsAllowed(addr, run, AutoUpdate(s, addr, run).log)
    ensures var started := AutoUpdate(s, addr, run).started;
      started.Some? ==> started.value < |run.containers| && MayUpdate(addr, run, started.value)
  {
    var (claimed, busy) := AgentBusy(s, addr, run.jobs, run.busyAt);
    if !busy {
      RunFromSendsAllowed(claimed, addr, run, 0);
    }
  }

  // ---------------------------------------------------------------- the first that can, is

  /** The stats show no upgrade running, and no claim stands: there is none, its container's job is
      seen to have ended since, or it is older than the timeout. */
  ghost predicate AgentIdle(s: State, addr: string, run: Run) {
    && (forall n :: n in run.jobs && run.jobs[n].action == Upgrade ==> run.jobs[n].phase != Running)
    && (addr in s.inFlight ==>
         var f := s.inFlight[addr];
         || (f.name in run.jobs && run.jobs[f.name].phase != Running && run.jobs[f.name].finished > f.prevFinished)
         || run.busyAt - f.since > 25 * 60 * SECOND)
  }

  /** The bookkeeping does not hold the container back: no failure is to be accounted for, and the
      next attempt is due. */
  ghost predicate Due(s: State, addr: string, run: Run, i: nat)
    requires run.Valid() && i < |run.containers|
  {
    var name := run.containers[i].name;
    var st := StateOf(s, addr + "::" + name);
    && !(name in run.jobs && run.jobs[name].action == Upgrade && run.jobs[name].phase == Failed
         && run.jobs[name].finished > st.seenFinished)
    && (st.next.None? || st.next.value <= run.visitAt[i])
  }

  lemma HeldIsSkipped(s: State, addr: string, run: Run, i: nat)
    requires run.Valid() && i < |run.containers| && !Due(s, addr, run, i)
    requires forall n :: n in run.jobs && run.jobs[n].action == Upgrade ==> run.jobs[n].phase != Running
    ensures Visit(s, addr, run.containers[i].name, run.jobs, run.visitAt[i]).verdict == Skip
  {
    assert Key(addr, run.containers[i].name) == addr + "::" + run.containers[i].name;
  }

  lemma DueIsClaimed(s: State, addr: string, run: Run, i: nat)
    requires run.Valid() && i < |run.containers| && Due(s, addr, run, i) && addr !in s.inFlight
    requires forall n :: n in run.jobs && run.jobs[n].action == Upgrade ==> run.jobs[n].phase != Running
    ensures var name, now := run.containers[i].name, run.visitAt[i];
      var v := Visit(s, addr, name, run.jobs, now);
      && v.verdict == Claim && v.events != [] && v.events[|v.events| - 1] == Sent(now)
      && v.state.inFlight == s.inFlight[addr := InFlight(name, now, if name in run.jobs then run.jobs[name].finished else 0)]
  {
    assert Key(addr, run.containers[i].name) == addr + "::" + run.containers[i].name;
  }

  /** What a visit leaves to the visits of other containers. */
  lemma VisitLeavesOthers(s: State, addr: string, run: Run, j: nat, i: nat)
    requires run.Valid() && j < |run.containers| && i < |run.containers|
    requires run.containers[j].name != run.containers[i].name
    ensures var s' := Visit(s, addr, run.containers[j].name, run.jobs, run.visitAt[j]).state;
      Due(s', addr, run, i) == Due(s, addr, run, i)
  {
    VisitEffect(s, addr, run.containers[j].name, run.jobs, run.visitAt[j], run.containers[i].name);
    assert Key(addr, run.containers[i].name) == addr + "::" + run.containers[i].name;
  }

  /** From container k on the i-th is the first that may be updated and is due, names being distinct. */
  ghost predicate FirstDueFrom(s: State, addr: string, run: Run, k: nat, i: nat)
    requires run.Valid() && k <= i < |run.containers|
  {
    && MayUpdate(addr, run, i) && Due(s, addr, run, i)
    && (forall j: nat :: k <= j < i ==> !(MayUpdate(addr, run, j) && Due(s, addr, run, j)))
    && (forall a, b :: k <= a < b <= i ==> run.containers[a].name != run.containers[b].name)
  }

  ghost predicate IsSent(ran: Ran, addr: string, run: Run, i: nat)
    requires run.Valid() && i < |run.containers|
  {
    var name, now := run.containers[i].name, run.visitAt[i];
    && Entry(name, Sent(now)) in ran.log
    && (run.replies[i].Pending? ==>
         && ran.started == Some(i) && addr in ran.state.inFlight
         && ran.state.inFlight[addr] == InFlight(name, now, if name in run.jobs then run.jobs[name].finished else 0))
  }

  lemma {:induction false} FirstDueFromIsSent(s: State, addr: string, run: Run, k: nat, i: nat)
    requires run.Valid() && k <= i < |run.containers| && FirstDueFrom(s, addr, run, k, i) && addr !in s.inFlight
    requires forall n :: n in run.jobs && run.jobs[n].action == Upgrade ==> run.jobs[n].phase != Running
    ensures IsSent(RunFrom(s, addr, run, k), addr, run, i)
    decreases i - k
  {
    UpdatedExactly(addr, run, k);
    var c, now := run.containers[k], run.visitAt[k];
    var v := Visit(s, addr, c.name, run.jobs, now);
    if k == i {
      DueIsClaimed(s, addr, run, i);
      var log := Entries(c.name, v.events);
      assert log[|v.events| - 1] == Entry(c.name, Sent(now));
      hide Visit, AutoUpdated, MayUpdate, Due;
      assert Entry(c.name, Sent(now)) in log;
    } else if !AutoUpdated(run.cfgs[k], addr, c) {
      hide Due, MayUpdate;
      FirstDueFromIsSent(s, addr, run, k + 1, i);
    } else {
      HeldIsSkipped(s, addr, run, k);
      SkipKeepsClaim(s, addr, c.name, run.jobs, now);
      forall j: nat | k < j <= i ensures Due(v.state, addr, run, j) == Due(s, addr, run, j) {
        VisitLeavesOthers(s, addr, run, k, j);
      }
      hide Visit, AutoUpdated, MayUpdate, Due;
      FirstDueFromIsSent(v.state, addr, run, k + 1, i);
    }
  }

  lemma SkipKeepsClaim(s: State, addr: string, name: string, jobs: Table, now: int)
    requires Visit(s, addr, name, jobs, now).verdict == Skip
    ensures Visit(s, addr, name, jobs, now).state.inFlight == s.inFlight
  {
  }

  /** An idle agent gets its request: the first container that may be updated and is due is sent,
      and, if the agent takes it, left claimed and running. */
  lemma FirstDueIsSent(s: State, addr: string, run: Run, i: nat)
    requires run.Valid() && i < |run.containers| && AgentIdle(s, addr, run) && FirstDueFrom(s, addr, run, 0, i)
    ensures IsSent(AutoUpdate(s, addr, run), addr, run, i)
  {
    var (claimed, busy) := AgentBusy(s, addr, run.jobs, run.busyAt);
    assert !busy && addr !in claimed.inFlight && claimed.auto == s.auto;
    forall j: nat | j <= i ensures Due(claimed, addr, run, j) == Due(s, addr, run, j) {}
    hide AgentBusy, MayUpdate, Due;
    FirstDueFromIsSent(claimed, addr, run, 0, i);
  }

  // ---------------------------------------------------------------- rate limits

  /** A failure that names a rate limit, anywhere in its message, holds the container for an hour at
      least; no other failure counts as one. */
  lemma RateLimitsExactly(error: string)
    ensures RateLimited(error) <==>
      exists before, after :: error == before + "toomanyrequests" + after || error == before + "rate limit" + after
    ensures RateLimited(error) ==> forall k: nat :: FailureBackoff(k, error) >= 60 * 60 * SECOND
  {
    ContainsExactly(error, "toomanyrequests");
    ContainsExactly(error, "rate limit");
    hide Contains;
    if exists before, after :: error == before + "rate limit" + after {
      var before, after :| error == before + "rate limit" + after;
      assert IsAround(error, before, "rate limit", after);
    }
    if exists before, after :: error == before + "toomanyrequests" + after {
      var before, after :| error == before + "toomanyrequests" + after;
      assert IsAround(error, before, "toomanyrequests", after);
    }
  }

  predicate IsAround(s: string, before: string, part: string, after: string) {
    s == before + part + after
  }

  lemma ContainsExactly(s: string, part: string)
    ensures Contains(s, part) <==> exists before, after :: IsAround(s, before, part, after)
  {
    if Contains(s, part) {
      var i :| 0 <= i <= |s| && part <= s[i..];
      assert s == s[..i] + part + s[i + |part|..];
      assert IsAround(s, s[..i], part, s[i + |part|..]);
    }
    if exists before, after :: IsAround(s, before, part, after) {
      var before, after :| IsAround(s, before, part, after);
      assert s[|before|..] == part + after;
      assert part <= s[|before|..];
    }
  }

  // ---------------------------------------------------------------- failures, with their errors

  /** A failed upgrade seen for the first time adds one failure, holds the container by its own
      error's wait, and is remembered; the container is passed over. */
  lemma FailureAccounted(s: State, addr: string, name: string, jobs: Table, now: int)
    requires name in jobs && jobs[name].action == Upgrade && jobs[name].phase == Failed
    requires jobs[name].finished > StateOf(s, addr + "::" + name).seenFinished
    ensures var key, job, st := addr + "::" + name, jobs[name], StateOf(s, addr + "::" + name);
      var wait := FailureBackoff(st.failures + 1, job.error);
      Visit(s, addr, name, jobs, now) ==
        Visited(State(s.auto[key := AutoState(Some(now + wait), st.failures + 1, job.finished)], s.inFlight), Skip,
                [Failure(now, st.failures + 1, wait, job.error, Some(job.finished))])
  {
    assert Key(addr, name) == addr + "::" + name;
    hide FailureBackoff;
  }

  /** So does a refused request, by the error it was refused with, counted from the claim; and the
      agent is free again. */
  lemma RefusalAccounted(s: State, addr: string, name: string, claimedAt: int, error: string)
    ensures var key, st := addr + "::" + name, StateOf(s, addr + "::" + name);
      var wait := FailureBackoff(st.failures + 1, error);
      Answered(s, addr, name, claimedAt, Refused(error)) ==
        (State(s.auto[key := AutoState(Some(claimedAt + wait), st.failures + 1, st.seenFinished)], s.inFlight - {addr}),
         [Failure(claimedAt, st.failures + 1, wait, error, None)])
  {
    assert Key(addr, name) == addr + "::" + name;
    hide FailureBackoff;
  }
}
