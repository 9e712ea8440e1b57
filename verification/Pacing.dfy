/** What the auto-update runs guarantee about one container over whole histories of runs. */
module Pacing {
  import opened Base
  import opened Jobs
  import opened Poller

  /** One container's share of a log. */
  function Of(log: seq<Entry>, name: string): seq<Event> {
    if log == [] then []
    else (if log[0].name == name then [log[0].event] else []) + Of(log[1..], name)
  }

  lemma {:induction false} OfConcat(a: seq<Entry>, b: seq<Entry>, name: string)
    ensures Of(a + b, name) == Of(a, name) + Of(b, name)
  {
    if a == [] {
      assert a + b == b;
    } else {
      assert (a + b)[1..] == a[1..] + b;
      OfConcat(a[1..], b, name);
    }
  }

  lemma {:induction false} OfEntries(name: string, events: seq<Event>, other: string)
    ensures Of(Entries(name, events), other) == if other == name then events else []
  {
    if events != [] {
      assert Entries(name, events)[1..] == Entries(name, events[1..]);
      OfEntries(name, events[1..], other);
    }
  }

  // ---------------------------------------------------------------- histories

  /** A run's clock readings, from and to some instants, never go back. */
  predicate Timed(run: Run, from: int, to: int) {
    && run.Valid()
    && from <= run.busyAt <= to
    && (forall i :: 0 <= i < |run.visitAt| ==> run.busyAt <= run.visitAt[i] <= to)
    && (forall i, j :: 0 <= i < j < |run.visitAt| ==> run.visitAt[i] <= run.visitAt[j])
  }

  function Finish(run: Run): int {
    if run.visitAt == [] then run.busyAt else run.visitAt[|run.visitAt| - 1]
  }

  /** Runs one after the other, for one agent. */
  predicate Sequential(runs: seq<Run>, from: int)
    decreases |runs|
  {
    runs == [] || (Timed(runs[0], from, Finish(runs[0])) && Sequential(runs[1..], Finish(runs[0])))
  }

  function AfterRuns(s: State, addr: string, runs: seq<Run>, from: int): (State, seq<Entry>)
    requires Sequential(runs, from)
    decreases |runs|
  {
    if runs == [] then (s, [])
    else
      var first := AutoUpdate(s, addr, runs[0]);
      var (s', rest) := AfterRuns(first.state, addr, runs[1..], Finish(runs[0]));
      (s', first.log + rest)
  }

  // ---------------------------------------------------------------- what holds of one container

  predicate IsFailure(es: seq<Event>, i: int) {
    0 <= i < |es| && es[i].Failure?
  }

  predicate NoFailureBetween(es: seq<Event>, i: int, j: int) {
    forall k :: i < k < j ==> !IsFailure(es, k)
  }

  /** How many failures in a row the events end with, counting on from a starting count. */
  function Streak(es: seq<Event>, start: nat): nat {
    if es == [] then start
    else
      var last := es[|es| - 1];
      match last
      case Sent(_) => Streak(es[..|es| - 1], start)
      case Failure(_, _, _, _, _) => Streak(es[..|es| - 1], start) + 1
      case Success(_, _) => 0
  }

  ghost predicate Ordered(es: seq<Event>) {
    forall i, j :: 0 <= i < j < |es| ==> es[i].at <= es[j].at
  }

  /** No two sends within the cooldown. */
  ghost predicate SendsSpaced(es: seq<Event>) {
    forall i, j :: 0 <= i < j < |es| && es[i].Sent? && es[j].Sent? ==> es[i].at + AUTO_COOLDOWN <= es[j].at
  }

  /** After a failure nothing is sent for the announced wait, unless another failure is
      accounted for first. */
  ghost predicate BackoffKept(es: seq<Event>) {
    forall i, j :: 0 <= i < j < |es| && es[i].Failure? && es[j].Sent? && NoFailureBetween(es, i, j) ==>
      es[i].at + es[i].wait <= es[j].at
  }

  /** Every announced wait is the one for the number of failures in a row up to it. */
  ghost predicate WaitsAnnounced(es: seq<Event>, start: nat) {
    forall i :: 0 <= i < |es| && es[i].Failure? ==>
      es[i].failures == Streak(es[..i + 1], start) && es[i].wait == FailureBackoff(es[i].failures, es[i].error)
  }

  function JobFinish(e: Event): Option<int> {
    if e.Sent? then None else e.finished
  }

  /** A finished job is accounted for at most once, and never after a later one. */
  ghost predicate JobsCountedOnce(es: seq<Event>) {
    forall i, j :: 0 <= i < j < |es| && JobFinish(es[i]).Some? && JobFinish(es[j]).Some? ==>
      JobFinish(es[i]).value < JobFinish(es[j]).value
  }

  ghost predicate Paced(es: seq<Event>, start: nat) {
    Ordered(es) && SendsSpaced(es) && BackoffKept(es) && WaitsAnnounced(es, start) && JobsCountedOnce(es)
  }

  predicate HeldUntil(st: AutoState, t: int) {
    st.next.Some? && st.next.value >= t
  }

  /** The next attempt is held back for every send and for the last failure, and every job that
      counted is remembered as seen. */
  ghost predicate Covers(st: AutoState, es: seq<Event>) {
    forall i :: 0 <= i < |es| ==>
      && (es[i].Sent? ==> HeldUntil(st, es[i].at + AUTO_COOLDOWN))
      && (es[i].Failure? && NoFailureBetween(es, i, |es|) ==> HeldUntil(st, es[i].at + es[i].wait))
      && (JobFinish(es[i]).Some? ==> JobFinish(es[i]).value <= st.seenFinished)
  }

  /** How the bookkeeping answers for the events so far. */
  ghost predicate Tracks(st: AutoState, es: seq<Event>, start: nat, now: int) {
    && Paced(es, start)
    && st.failures == Streak(es, start)
    && Covers(st, es)
    && forall i :: 0 <= i < |es| ==> es[i].at <= now
  }

  /** Adding one event keeps what was ordered pairwise before it. */
  lemma AddEvent(es: seq<Event>, e: Event, start: nat)
    requires Paced(es, start)
    requires forall i :: 0 <= i < |es| ==>
      && es[i].at <= e.at
      && (es[i].Sent? && e.Sent? ==> es[i].at + AUTO_COOLDOWN <= e.at)
      && (es[i].Failure? && e.Sent? && NoFailureBetween(es, i, |es|) ==> es[i].at + es[i].wait <= e.at)
      && (JobFinish(es[i]).Some? && JobFinish(e).Some? ==> JobFinish(es[i]).value < JobFinish(e).value)
    requires e.Failure? ==> e.failures == Streak(es, start) + 1 && e.wait == FailureBackoff(e.failures, e.error)
    ensures Paced(es + [e], start)
    ensures Streak(es + [e], start) ==
      match e case Sent(_) => Streak(es, start) case Failure(_, _, _, _, _) => Streak(es, start) + 1 case Success(_, _) => 0
  {
    var fs := es + [e];
    assert fs[..|es|] == es;
    forall i | 0 <= i < |fs| && fs[i].Failure?
      ensures fs[i].failures == Streak(fs[..i + 1], start) && fs[i].wait == FailureBackoff(fs[i].failures, fs[i].error)
    {
      if i < |es| {
        assert fs[..i + 1] == es[..i + 1];
      } else {
        assert fs[..i + 1] == fs;
      }
    }
    forall i, j | 0 <= i < j < |fs| && fs[i].Failure? && fs[j].Sent? && NoFailureBetween(fs, i, j)
      ensures fs[i].at + fs[i].wait <= fs[j].at
    {
      FewerEvents(es, e, i, j);
    }
  }

  lemma FewerEvents(es: seq<Event>, e: Event, i: int, j: int)
    requires NoFailureBetween(es + [e], i, j) && j <= |es| + 1
    ensures NoFailureBetween(es, i, if j <= |es| then j else |es|)
  {
    forall k | i < k < (if j <= |es| then j else |es|)
      ensures !IsFailure(es, k)
    {
      assert !IsFailure(es + [e], k);
    }
  }

  // ---------------------------------------------------------------- each locked section

  lemma SettleTracks(st: AutoState, es: seq<Event>, start: nat, was: int, jobs: Table, name: string, now: int)
    requires Tracks(st, es, start, was) && was <= now
    ensures var (st', events) := Settle(st, jobs, name, now); Tracks(st', es + events, start, now)
  {
    hide Paced;
    var (st', events) := Settle(st, jobs, name, now);
    if events == [] {
      assert es + events == es;
    } else {
      var e := events[0];
      assert events == [e];
      AddEvent(es, e, start);
      StillHeld(st, st', es, e, start, was, now);
    }
  }

  /** The bookkeeping after one more event keeps answering for the earlier ones when it never
      lets go of a hold, except where a new failure replaces the earlier announcement. */
  lemma StillHeld(st: AutoState, st': AutoState, es: seq<Event>, e: Event, start: nat, was: int, now: int)
    requires Tracks(st, es, start, was) && was <= e.at <= now
    requires Paced(es + [e], start) && st'.failures == Streak(es + [e], start)
    requires st'.seenFinished >= st.seenFinished
    requires JobFinish(e).Some? ==> JobFinish(e).value <= st'.seenFinished
    requires e.Sent? ==> HeldUntil(st', e.at + AUTO_COOLDOWN)
    requires e.Failure? ==> HeldUntil(st', e.at + e.wait)
    requires forall t :: HeldUntil(st, t) ==> HeldUntil(st', if e.Failure? then Min(t, e.at + AUTO_COOLDOWN) else t)
    ensures Tracks(st', es + [e], start, now)
  {
    hide Paced;
    var fs := es + [e];
    forall i | 0 <= i < |fs|
      ensures fs[i].Sent? ==> HeldUntil(st', fs[i].at + AUTO_COOLDOWN)
      ensures fs[i].Failure? && NoFailureBetween(fs, i, |fs|) ==> HeldUntil(st', fs[i].at + fs[i].wait)
    {
      if i < |es| {
        if fs[i].Sent? {
          assert HeldUntil(st, es[i].at + AUTO_COOLDOWN);
        }
        if fs[i].Failure? && NoFailureBetween(fs, i, |fs|) {
          FewerEvents(es, e, i, |fs|);
          assert !IsFailure(fs, |es|);
          assert HeldUntil(st, es[i].at + es[i].wait);
        }
      }
    }
  }

  lemma SendTracks(st: AutoState, es: seq<Event>, start: nat, now: int)
    requires Tracks(st, es, start, now)
    requires st.next.Some? ==> st.next.value <= now
    ensures Tracks(st.(next := Some(now + AUTO_COOLDOWN)), es + [Sent(now)], start, now)
  {
    hide Paced;
    AddEvent(es, Sent(now), start);
    StillHeld(st, st.(next := Some(now + AUTO_COOLDOWN)), es, Sent(now), start, now, now);
  }

  lemma RefusalTracks(st: AutoState, es: seq<Event>, start: nat, now: int, error: string)
    requires Tracks(st, es, start, now)
    ensures var wait := FailureBackoff(st.failures + 1, error);
      Tracks(AutoState(Some(now + wait), st.failures + 1, st.seenFinished),
             es + [Failure(now, st.failures + 1, wait, error, None)], start, now)
  {
    hide Paced;
    var wait := FailureBackoff(st.failures + 1, error);
    var e := Failure(now, st.failures + 1, wait, error, None);
    AddEvent(es, e, start);
    StillHeld(st, AutoState(Some(now + wait), st.failures + 1, st.seenFinished), es, e, start, now, now);
  }

  /** Tracks for the container under one name, whatever else is in the maps. */
  ghost predicate Follows(s: State, addr: string, name: string, es: seq<Event>, start: nat, now: int) {
    Tracks(StateOf(s, Key(addr, name)), es, start, now)
  }

  lemma TracksLater(st: AutoState, es: seq<Event>, start: nat, was: int, now: int)
    requires Tracks(st, es, start, was) && was <= now
    ensures Tracks(st, es, start, now)
  {
    hide Paced, Covers;
  }

  /** What one visit does to the bookkeeping under one name. */
  lemma VisitEffect(s: State, addr: string, visited: string, jobs: Table, now: int, name: string)
    ensures var v, st := Visit(s, addr, visited, jobs, now), StateOf(s, Key(addr, name));
      var st', more := StateOf(v.state, Key(addr, name)), Of(Entries(visited, v.events), name);
      if visited != name || UpgradeRunning(jobs, name) then st' == st && more == []
      else
        var (settled, events) := Settle(st, jobs, name, now);
        if v.verdict == Claim then
          && (settled.next.Some? ==> settled.next.value <= now)
          && st' == settled.(next := Some(now + AUTO_COOLDOWN)) && more == events + [Sent(now)]
        else st' == settled && more == events
  {
    OfEntries(visited, Visit(s, addr, visited, jobs, now).events, name);
    if visited != name && Key(addr, visited) == Key(addr, name) {
      KeyInjective(addr, visited, name);
    }
  }

  lemma VisitFollows(s: State, addr: string, visited: string, jobs: Table, now: int,
                     name: string, es: seq<Event>, start: nat, was: int)
    requires Follows(s, addr, name, es, start, was) && was <= now
    ensures var v := Visit(s, addr, visited, jobs, now);
      Follows(v.state, addr, name, es + Of(Entries(visited, v.events), name), start, now)
  {
    hide Tracks;
    VisitEffect(s, addr, visited, jobs, now, name);
    var v, st := Visit(s, addr, visited, jobs, now), StateOf(s, Key(addr, name));
    var st', more := StateOf(v.state, Key(addr, name)), Of(Entries(visited, v.events), name);
    if visited != name || UpgradeRunning(jobs, name) {
      TracksLater(st, es, start, was, now);
      SameTracks(st, st', es, more, start, now);
    } else {
      SettleTracks(st, es, start, was, jobs, name, now);
      var (settled, events) := Settle(st, jobs, name, now);
      if v.verdict == Claim {
        SendTracks(settled, es + events, start, now);
        assert es + more == es + events + [Sent(now)];
      }
    }
  }

  lemma SameTracks(st: AutoState, st': AutoState, es: seq<Event>, more: seq<Event>, start: nat, now: int)
    requires Tracks(st, es, start, now) && st' == st && more == []
    ensures Tracks(st', es + more, start, now)
  {
    hide Tracks;
    assert es + more == es;
  }

  lemma AnsweredEffect(s: State, addr: string, posted: string, now: int, reply: Reply, name: string)
    ensures var (s', events) := Answered(s, addr, posted, now, reply);
      var st, st', more := StateOf(s, Key(addr, name)), StateOf(s', Key(addr, name)), Of(Entries(posted, events), name);
      if posted == name && reply.Refused? then
        var wait := FailureBackoff(st.failures + 1, reply.error);
        && st' == AutoState(Some(now + wait), st.failures + 1, st.seenFinished)
        && more == [Failure(now, st.failures + 1, wait, reply.error, None)]
      else st' == st && more == []
  {
    OfEntries(posted, Answered(s, addr, posted, now, reply).1, name);
    if posted != name && Key(addr, posted) == Key(addr, name) {
      KeyInjective(addr, posted, name);
    }
  }

  lemma AnsweredFollows(s: State, addr: string, posted: string, now: int, reply: Reply,
                        name: string, es: seq<Event>, start: nat)
    requires Follows(s, addr, name, es, start, now)
    ensures var (s', events) := Answered(s, addr, posted, now, reply);
      Follows(s', addr, name, es + Of(Entries(posted, events), name), start, now)
  {
    hide Tracks;
    AnsweredEffect(s, addr, posted, now, reply, name);
    var (s', events) := Answered(s, addr, posted, now, reply);
    if posted == name && reply.Refused? {
      RefusalTracks(StateOf(s, Key(addr, name)), es, start, now, reply.error);
    } else {
      SameTracks(StateOf(s, Key(addr, name)), StateOf(s', Key(addr, name)), es, Of(Entries(posted, events), name), start, now);
    }
  }

  lemma FollowsLater(s: State, addr: string, name: string, es: seq<Event>, more: seq<Event>, start: nat, was: int, now: int)
    requires Follows(s, addr, name, es, start, was) && was <= now && more == []
    ensures Follows(s, addr, name, es + more, start, now)
  {
    hide Tracks;
    var st := StateOf(s, Key(addr, name));
    TracksLater(st, es, start, was, now);
    SameTracks(st, st, es, more, start, now);
  }

  lemma Regroup(es: seq<Event>, a: seq<Entry>, b: seq<Entry>, ab: seq<Entry>, name: string)
    requires ab == a + b
    ensures es + Of(a, name) + Of(b, name) == es + Of(ab, name)
  {
    OfConcat(a, b, name);
  }

  lemma {:induction false} RunFromFollows(s: State, addr: string, run: Run, i: nat,
                                          name: string, es: seq<Event>, start: nat, was: int, to: int)
    requires Timed(run, was, to) && i <= |run.containers|
    requires was <= to && (i > 0 ==> was <= run.visitAt[i - 1])
    requires Follows(s, addr, name, es, start, if i == 0 then was else run.visitAt[i - 1])
    ensures var ran := RunFrom(s, addr, run, i);
      Follows(ran.state, addr, name, es + Of(ran.log, name), start, to)
    decreases |run.containers| - i
  {
    hide Follows;
    var sofar := if i == 0 then was else run.visitAt[i - 1];
    if i == |run.containers| {
      FollowsLater(s, addr, name, es, Of([], name), start, sofar, to);
      return;
    }
    var c, now := run.containers[i], run.visitAt[i];
    if !AutoUpdated(run.cfgs[i], addr, c) {
      FollowsLater(s, addr, name, es, [], start, sofar, now);
      assert es + [] == es;
      RunFromFollows(s, addr, run, i + 1, name, es, start, was, to);
      return;
    }
    VisitFollows(s, addr, c.name, run.jobs, now, name, es, start, sofar);
    var v := Visit(s, addr, c.name, run.jobs, now);
    var log := Entries(c.name, v.events);
    var es' := es + Of(log, name);
    match v.verdict
    case Skip =>
      RunFromFollows(v.state, addr, run, i + 1, name, es', start, was, to);
      var rest := RunFrom(v.state, addr, run, i + 1).log;
      Regroup(es, log, rest, log + rest, name);
    case Stop =>
      FollowsLater(v.state, addr, name, es', [], start, now, to);
      assert es' + [] == es';
    case Claim =>
      AnsweredFollows(v.state, addr, c.name, now, run.replies[i], name, es', start);
      ClaimedFollows(v.state, addr, run, i, name, es', log, es, start, was, to);
  }

  /** The rest of a run after a claim was answered. */
  lemma {:induction false} ClaimedFollows(s: State, addr: string, run: Run, i: nat, name: string, es': seq<Event>,
                                          log: seq<Entry>, es: seq<Event>, start: nat, was: int, to: int)
    requires Timed(run, was, to) && i < |run.containers| && was <= run.visitAt[i] <= to
    requires es' == es + Of(log, name)
    requires var (s', events) := Answered(s, addr, run.containers[i].name, run.visitAt[i], run.replies[i]);
      Follows(s', addr, name, es' + Of(Entries(run.containers[i].name, events), name), start, run.visitAt[i])
    ensures var (s', events) := Answered(s, addr, run.containers[i].name, run.visitAt[i], run.replies[i]);
      if run.replies[i].Pending? then Follows(s', addr, name, es + Of(log, name), start, to)
      else
        var rest := RunFrom(s', addr, run, i + 1);
        Follows(rest.state, addr, name, es + Of(log + Entries(run.containers[i].name, events) + rest.log, name), start, to)
    decreases |run.containers| - i, 0
  {
    hide Follows;
    var c, now := run.containers[i], run.visitAt[i];
    var (s', events) := Answered(s, addr, c.name, now, run.replies[i]);
    var more := Entries(c.name, events);
    if run.replies[i].Pending? {
      FollowsLater(s', addr, name, es' + Of(more, name), [], start, now, to);
      assert es' + Of(more, name) + [] == es';
    } else {
      RunFromFollows(s', addr, run, i + 1, name, es' + Of(more, name), start, was, to);
      var rest := RunFrom(s', addr, run, i + 1).log;
      Regroup(es, log, more, log + more, name);
      Regroup(es, log + more, rest, log + more + rest, name);
    }
  }

  lemma RunFollows(s: State, addr: string, run: Run, name: string, es: seq<Event>, start: nat, was: int, to: int)
    requires Timed(run, was, to) && Follows(s, addr, name, es, start, was)
    ensures var ran := AutoUpdate(s, addr, run);
      Follows(ran.state, addr, name, es + Of(ran.log, name), start, to)
  {
    var (claimed, busy) := AgentBusy(s, addr, run.jobs, run.busyAt);
    assert claimed.auto == s.auto;
    if busy {
      FollowsLater(claimed, addr, name, es, Of([], name), start, was, to);
    } else {
      RunFromFollows(claimed, addr, run, 0, name, es, start, was, to);
    }
  }

  /** The instant the last of some runs ends. */
  function End(runs: seq<Run>, from: int): int
    decreases |runs|
  {
    if runs == [] then from else End(runs[1..], Finish(runs[0]))
  }

  lemma {:induction false} HistoryFollows(s: State, addr: string, runs: seq<Run>, from: int,
                                          name: string, es: seq<Event>, start: nat)
    requires Sequential(runs, from) && Follows(s, addr, name, es, start, from)
    ensures var (s', log) := AfterRuns(s, addr, runs, from);
      Follows(s', addr, name, es + Of(log, name), start, End(runs, from))
    decreases |runs|
  {
    hide Follows;
    if runs == [] {
      FollowsLater(s, addr, name, es, Of([], name), start, from, from);
    } else {
      var first, to := AutoUpdate(s, addr, runs[0]), Finish(runs[0]);
      RunFollows(s, addr, runs[0], name, es, start, from, to);
      HistoryFollows(first.state, addr, runs[1..], to, name, es + Of(first.log, name), start);
      var rest := AfterRuns(first.state, addr, runs[1..], to).1;
      Regroup(es, first.log, rest, first.log + rest, name);
    }
  }

  /** From a state with no history yet. */
  lemma WholeHistory(s: State, addr: string, runs: seq<Run>, from: int, name: string)
    requires Sequential(runs, from)
    ensures var (s', log) := AfterRuns(s, addr, runs, from);
      Follows(s', addr, name, Of(log, name), StateOf(s, Key(addr, name)).failures, End(runs, from))
  {
    HistoryFollows(s, addr, runs, from, name, [], StateOf(s, Key(addr, name)).failures);
    var log := AfterRuns(s, addr, runs, from).1;
    assert [] + Of(log, name) == Of(log, name);
  }

  // ---------------------------------------------------------------- main results

  /** Over any sequence of runs, from any state: sends of one container are AUTO_COOLDOWN
      apart; each failure announces the backoff for the failures in a row up to it and nothing
      is sent within it unless another failure comes first; no finished job counts twice. */
  lemma HistoryIsPaced(s: State, addr: string, runs: seq<Run>, from: int, name: string)
    requires Sequential(runs, from)
    ensures Paced(Of(AfterRuns(s, addr, runs, from).1, name), StateOf(s, Key(addr, name)).failures)
  {
    WholeHistory(s, addr, runs, from, name);
  }

  /** The bookkeeping left behind: the next attempt is never sooner than AUTO_COOLDOWN after any
      send, nor than the announced wait after the last failure, and failures is the streak. */
  lemma NextCoversHistory(s: State, addr: string, runs: seq<Run>, from: int, name: string)
    requires Sequential(runs, from)
    ensures var (s', log) := AfterRuns(s, addr, runs, from);
      var es, st := Of(log, name), StateOf(s', Key(addr, name));
      st.failures == Streak(es, StateOf(s, Key(addr, name)).failures) && Covers(st, es)
  {
    hide Paced, Covers;
    WholeHistory(s, addr, runs, from, name);
  }

  // ---------------------------------------------------------------- how slowly failures add up

  /** min(10 * 2^(i-1), 360) minutes, for the i-th failure in a row. */
  function Doubling(i: nat): int
    requires i >= 1
  {
    Min(10 * Pow2(i - 1), 360) * MINUTE
  }

  function SumDoubling(n: nat): int {
    if n == 0 then 0 else SumDoubling(n - 1) + Doubling(n)
  }

  lemma {:induction false} Pow2AtLeast(n: nat, m: nat)
    requires m <= n
    ensures Pow2(m) <= Pow2(n)
    decreases n
  {
    if m < n { Pow2AtLeast(n - 1, m); }
  }

  /** Without a rate limit the wait is exactly the doubling sequence, for every count; with one
      it is at least an hour and never shorter than the doubling sequence. */
  lemma BackoffDoubles(i: nat, error: string)
    requires i >= 1
    ensures FailureBackoff(i, error) == if RateLimited(error) then Max(Doubling(i), RATE_LIMIT_BACKOFF) else Doubling(i)
  {
    if i >= 16 {
      Pow2AtLeast(i - 1, 15);
      assert Pow2(15) == 32768 by {
        assert Pow2(5) == 32;
        assert Pow2(10) == 1024;
      }
    }
  }

  predicate SendBetween(es: seq<Event>, i: int, j: int) {
    exists k :: 0 <= i < k < j < |es| && es[k].Sent?
  }

  /** Failures of one streak: no success lies between them. */
  predicate InStreak(es: seq<Event>, i: int, j: int) {
    IsFailure(es, i) && IsFailure(es, j) && i <= j && forall k :: i < k < j ==> !es[k].Success?
  }

  /** Any two failures from i to j have a send between them. */
  ghost predicate SeparatedFrom(es: seq<Event>, i: int, j: int) {
    forall a, b :: i <= a < b <= j && IsFailure(es, a) && IsFailure(es, b) ==> SendBetween(es, a, b)
  }

  function Failures(es: seq<Event>): nat {
    if es == [] then 0 else Failures(es[..|es| - 1]) + if es[|es| - 1].Failure? then 1 else 0
  }

  /** From failure i to failure j of one streak all the waits from i's on have passed, j's own
      excepted. From the first of n failures that is the sum of the first n - 1. */
  predicate SlowFrom(es: seq<Event>, i: int, j: int)
    requires IsFailure(es, i) && IsFailure(es, j)
  {
    && 1 <= es[i].failures <= es[j].failures
    && es[j].at >= es[i].at + SumDoubling(es[j].failures - 1) - SumDoubling(es[i].failures - 1)
  }

  ghost predicate Slowed(es: seq<Event>) {
    forall i, j :: InStreak(es, i, j) ==> SlowFrom(es, i, j)
  }

  /** A streak's failures are counted one by one. */
  lemma {:induction false} StreakCounts(es: seq<Event>, start: nat, i: int, n: int)
    requires WaitsAnnounced(es, start) && IsFailure(es, i) && i < n <= |es|
    requires forall k :: i < k < n ==> !es[k].Success?
    ensures Streak(es[..n], start) == es[i].failures + Failures(es[i + 1..n])
    ensures es[i].failures >= 1
    decreases n
  {
    assert es[..n][..n - 1] == es[..n - 1];
    if n > i + 1 {
      assert es[i + 1..n][..n - i - 2] == es[i + 1..n - 1];
      StreakCounts(es, start, i, n - 1);
    } else {
      assert Streak(es[..n], start) == Streak(es[..n - 1], start) + 1;
    }
  }

  lemma {:induction false} NoFailures(es: seq<Event>)
    requires forall k :: 0 <= k < |es| ==> !es[k].Failure?
    ensures Failures(es) == 0
  {
    if es != [] {
      NoFailures(es[..|es| - 1]);
    }
  }

  lemma {:induction false} LastFailure(es: seq<Event>, i: int, j: int) returns (p: int)
    requires IsFailure(es, i) && i < j <= |es|
    ensures i <= p < j && IsFailure(es, p) && NoFailureBetween(es, p, j)
    decreases j
  {
    p := j - 1;
    if !es[p].Failure? {
      p := LastFailure(es, i, j - 1);
    }
  }

  /** One failure and the next of its streak, with a send between them. */
  lemma NextFailureWaits(es: seq<Event>, start: nat, p: int, j: int)
    requires Paced(es, start) && InStreak(es, p, j) && p < j && NoFailureBetween(es, p, j) && SendBetween(es, p, j)
    ensures es[j].failures == es[p].failures + 1 && es[p].failures >= 1
    ensures es[j].at >= es[p].at + Doubling(es[p].failures)
  {
    StreakCounts(es, start, p, j);
    var gap := es[p + 1..j];
    forall k | 0 <= k < |gap| ensures !gap[k].Failure? {
      assert !IsFailure(es, p + 1 + k);
    }
    NoFailures(gap);
    assert es[..j + 1][..j] == es[..j];
    assert es[j].failures == Streak(es[..j + 1], start);
    var k :| p < k < j && es[k].Sent?;
    assert NoFailureBetween(es, p, k);
    assert es[p].at + es[p].wait <= es[k].at <= es[j].at;
    BackoffDoubles(es[p].failures, es[p].error);
  }

  /** A streak whose failures have sends between them takes the sum of its waits: every failure
      waits before the next send, and so before the next failure. */
  lemma {:induction false} StreakTakesTime(es: seq<Event>, start: nat, i: int, j: int)
    requires Paced(es, start) && InStreak(es, i, j) && SeparatedFrom(es, i, j)
    ensures SlowFrom(es, i, j)
    decreases j
  {
    if i < j {
      var p := LastFailure(es, i, j);
      assert SendBetween(es, p, j);
      NextFailureWaits(es, start, p, j);
      hide Paced, SendBetween;
      StreakTakesTime(es, start, i, p);
    } else {
      StreakCounts(es, start, i, i + 1);
    }
  }

  /** Over any sequence of runs from any state, and whatever else the container went through:
      a streak with a send between any two of its failures takes the sum of its waits. */
  lemma RepeatedFailuresSlowDown(s: State, addr: string, runs: seq<Run>, from: int, name: string, i: int, j: int)
    requires Sequential(runs, from)
    requires var es := Of(AfterRuns(s, addr, runs, from).1, name); InStreak(es, i, j) && SeparatedFrom(es, i, j)
    ensures SlowFrom(Of(AfterRuns(s, addr, runs, from).1, name), i, j)
  {
    HistoryIsPaced(s, addr, runs, from, name);
    StreakTakesTime(Of(AfterRuns(s, addr, runs, from).1, name), StateOf(s, Key(addr, name)).failures, i, j);
  }

  function FailedUpgrade(finished: int): Job {
    Job(Upgrade, Failed, "", 0, finished)
  }

  /** One poll of one container whose last upgrade failed. */
  function PollOne(cfg: Config, c: Container, finished: int, at: int): Run {
    Run([cfg], [c], map[c.name := FailedUpgrade(finished)], at, [at], [Pending])
  }

  /** Sends are what makes failures slow: upgrades started by hand count as failures too, and two
      of them can be accounted for a minute apart. */
  lemma ManualFailuresAreNotPaced(addr: string, cfg: Config, c: Container)
    requires AutoUpdated(cfg, addr, c)
    ensures var runs := [PollOne(cfg, c, 1, 0), PollOne(cfg, c, 2, MINUTE)];
      Sequential(runs, 0) &&
      var es := Of(AfterRuns(State(map[], map[]), addr, runs, 0).1, c.name);
      InStreak(es, 0, 1) && !SendBetween(es, 0, 1) && !SlowFrom(es, 0, 1)
  {
    var one, two := PollOne(cfg, c, 1, 0), PollOne(cfg, c, 2, MINUTE);
    var runs := [one, two];
    assert runs[1..] == [two] && [two][1..] == [];
    var s0 := State(map[], map[]);
    var key := Key(addr, c.name);
    var wait1, wait2 := FailureBackoff(1, ""), FailureBackoff(2, "");
    var f1, f2 := Failure(0, 1, wait1, "", Some(1)), Failure(MINUTE, 2, wait2, "", Some(2));

    var v1 := Visit(s0, addr, c.name, one.jobs, 0);
    assert v1.verdict == Skip && v1.events == [f1];
    assert RunFrom(v1.state, addr, one, 1) == Ran(v1.state, [], None);
    assert AutoUpdate(s0, addr, one).state == v1.state && AutoUpdate(s0, addr, one).log == [Entry(c.name, f1)];

    var v2 := Visit(v1.state, addr, c.name, two.jobs, MINUTE);
    assert StateOf(v1.state, key) == AutoState(Some(wait1), 1, 1);
    assert v2.verdict == Skip && v2.events == [f2];
    assert RunFrom(v2.state, addr, two, 1) == Ran(v2.state, [], None);
    assert AutoUpdate(v1.state, addr, two).log == [Entry(c.name, f2)];

    var log := AfterRuns(s0, addr, runs, 0).1;
    assert AfterRuns(v1.state, addr, [two], 0).1 == [Entry(c.name, f2)] + [];
    assert log == [Entry(c.name, f1), Entry(c.name, f2)];
    assert log[1..] == [Entry(c.name, f2)] && log[1..][1..] == [];
    assert Of(log[1..], c.name) == [f2] + Of([], c.name);
    assert Of(log, c.name) == [f1, f2];
    assert SumDoubling(1) == SumDoubling(0) + Doubling(1) == 10 * MINUTE;
    var es := Of(log, c.name);
    assert IsFailure(es, 0) && IsFailure(es, 1);
  }
}
