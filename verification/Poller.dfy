/** The dashboard's auto-update runs (internal/dashboard/poller.go).

    Each function describes one locked section of the source; a sequential run composes them,
    and the class carries them out on its maps. POST answers and clock readings are inputs. */
module Poller {
  import opened Base
  import opened Jobs

  const AUTO_COOLDOWN := 10 * MINUTE
  const MAX_AUTO_BACKOFF := 6 * HOUR
  const RATE_LIMIT_BACKOFF := HOUR
  const IN_FLIGHT_TIMEOUT := 25 * MINUTE
  // The HTTP client's own limit on one upgrade request.
  const POST_TIMEOUT := 15 * MINUTE

  datatype Container = Container(id: string, name: string, state: string, updateAvailable: bool)

  datatype Config = Config(protected: seq<string>, autoUpdate: map<string, bool>)

  datatype InFlight = InFlight(name: string, since: int, prevFinished: int)

  // next is None until the container is first attempted (Go's zero time).
  datatype AutoState = AutoState(next: Option<int>, failures: nat, seenFinished: int)

  datatype State = State(auto: map<string, AutoState>, inFlight: map<string, InFlight>)

  // What the agent made of an upgrade request: it runs as a background job, it already ran to
  // completion (older agents), or it could not be started.
  datatype Reply = Pending | Completed | Refused(error: string)

  // What a run reports about one container, with the clock reading it acted on. A failure
  // comes from a finished job or, with finished == None, from a refused request.
  datatype Event =
    | Sent(at: int)
    | Failure(at: int, failures: nat, wait: int, error: string, finished: Option<int>)
    | Success(at: int, finished: Option<int>)

  datatype Entry = Entry(name: string, event: Event)

  function Key(addr: string, name: string): string {
    addr + "::" + name
  }

  lemma KeyInjective(addr: string, m: string, n: string)
    requires Key(addr, m) == Key(addr, n)
    ensures m == n
  {
    var k := |addr + "::"|;
    assert Key(addr, m)[k..] == m && Key(addr, n)[k..] == n;
  }

  predicate Contains(s: string, part: string) {
    exists i | 0 <= i <= |s| :: part <= s[i..]
  }

  predicate RateLimited(error: string) {
    Contains(error, "toomanyrequests") || Contains(error, "rate limit")
  }

  function FailureBackoff(failures: int, error: string): (d: int)
    ensures AUTO_COOLDOWN <= d <= MAX_AUTO_BACKOFF
    ensures RateLimited(error) ==> d >= RATE_LIMIT_BACKOFF
  {
    var d := if 1 <= failures < 16 then Min(AUTO_COOLDOWN * Pow2(failures - 1), MAX_AUTO_BACKOFF) else MAX_AUTO_BACKOFF;
    if RateLimited(error) then Max(d, RATE_LIMIT_BACKOFF) else d
  }

  predicate AutoUpdated(cfg: Config, addr: string, c: Container) {
    && c.updateAvailable
    && c.state == "running"
    && c.name !in cfg.protected
    && Key(addr, c.name) in cfg.autoUpdate
    && cfg.autoUpdate[Key(addr, c.name)]
  }

  predicate UpgradeRunning(jobs: Table, name: string) {
    name in jobs && jobs[name].action == Upgrade && jobs[name].phase == Running
  }

  function FinishedOf(jobs: Table, name: string): int {
    if name in jobs then jobs[name].finished else 0
  }

  /** The snapshot shows the claimed container's job finished later than when it was claimed. */
  predicate ShowsFinish(f: InFlight, jobs: Table) {
    f.name in jobs && jobs[f.name].phase != Running && jobs[f.name].finished > f.prevFinished
  }

  // ---------------------------------------------------------------- locked sections

  /** agentBusy: the second component says whether the run must stop. */
  function AgentBusy(s: State, addr: string, jobs: Table, now: int): (State, bool) {
    if exists name <- jobs :: UpgradeRunning(jobs, name) then (s, true)
    else if addr !in s.inFlight then (s, false)
    else if ShowsFinish(s.inFlight[addr], jobs) || now - s.inFlight[addr].since > IN_FLIGHT_TIMEOUT then
      (s.(inFlight := s.inFlight - {addr}), false)
    else (s, true)
  }

  function StateOf(s: State, key: string): AutoState {
    if key in s.auto then s.auto[key] else AutoState(None, 0, 0)
  }

  predicate Unaccounted(st: AutoState, jobs: Table, name: string) {
    name in jobs && jobs[name].action == Upgrade && jobs[name].finished > st.seenFinished
  }

  /** Accounts for the outcome of a finished upgrade job, once. */
  function Settle(st: AutoState, jobs: Table, name: string, now: int): (AutoState, seq<Event>) {
    if !Unaccounted(st, jobs, name) then (st, [])
    else
      var j := jobs[name];
      if j.phase == Failed then
        var wait := FailureBackoff(st.failures + 1, j.error);
        (AutoState(Some(now + wait), st.failures + 1, j.finished),
         [Failure(now, st.failures + 1, wait, j.error, Some(j.finished))])
      else (AutoState(st.next, 0, j.finished), [Success(now, Some(j.finished))])
  }

  datatype Verdict = Skip | Stop | Claim

  datatype Visited = Visited(state: State, verdict: Verdict, events: seq<Event>)

  /** Check-and-claim for one eligible container. */
  function Visit(s: State, addr: string, name: string, jobs: Table, now: int): Visited {
    var key := Key(addr, name);
    var st := StateOf(s, key);
    if UpgradeRunning(jobs, name) then Visited(s.(auto := s.auto[key := st]), Skip, [])
    else
      var (settled, events) := Settle(st, jobs, name, now);
      Claims(s, addr, name, FinishedOf(jobs, name), settled, events, now)
  }

  /** Whether a container whose finished job is accounted for is claimed now. */
  function Claims(s: State, addr: string, name: string, finished: int, settled: AutoState, events: seq<Event>, now: int): Visited {
    var key := Key(addr, name);
    var s' := s.(auto := s.auto[key := settled]);
    if settled.next.Some? && now < settled.next.value then Visited(s', Skip, events)
    else if addr in s.inFlight then Visited(s', Stop, events)
    else
      Visited(State(s.auto[key := settled.(next := Some(now + AUTO_COOLDOWN))],
                    s.inFlight[addr := InFlight(name, now, finished)]),
              Claim, events + [Sent(now)])
  }

  /** What happens when the POST for a claim made at claimedAt returns. */
  function Answered(s: State, addr: string, name: string, claimedAt: int, reply: Reply): (State, seq<Event>) {
    match reply
    case Pending => (s, [])
    case Completed => (s.(inFlight := s.inFlight - {addr}), [])
    case Refused(error) =>
      var st := StateOf(s, Key(addr, name));
      var wait := FailureBackoff(st.failures + 1, error);
      (State(s.auto[Key(addr, name) := AutoState(Some(claimedAt + wait), st.failures + 1, st.seenFinished)],
             s.inFlight - {addr}),
       [Failure(claimedAt, st.failures + 1, wait, error, None)])
  }

  // ---------------------------------------------------------------- one sequential run

  // One call of runAutoUpdates: its arguments, the settings it reads at each container, the clock
  // readings it takes (in agentBusy and at each container) and how the agent would answer a POST
  // for each container.
  datatype Run = Run(cfgs: seq<Config>, containers: seq<Container>, jobs: Table,
                     busyAt: int, visitAt: seq<int>, replies: seq<Reply>)
  {
    predicate Valid() {
      |cfgs| == |visitAt| == |replies| == |containers|
    }
  }

  // started is the index of the container whose upgrade the agent now runs in the background.
  datatype Ran = Ran(state: State, log: seq<Entry>, started: Option<nat>)

  function Entries(name: string, events: seq<Event>): seq<Entry> {
    seq(|events|, i requires 0 <= i < |events| => Entry(name, events[i]))
  }

  function RunFrom(s: State, addr: string, run: Run, i: nat): Ran
    requires run.Valid() && i <= |run.containers|
    decreases |run.containers| - i
  {
    if i == |run.containers| then Ran(s, [], None)
    else
      var c := run.containers[i];
      if !AutoUpdated(run.cfgs[i], addr, c) then RunFrom(s, addr, run, i + 1)
      else
        var v := Visit(s, addr, c.name, run.jobs, run.visitAt[i]);
        var log := Entries(c.name, v.events);
        match v.verdict
        case Skip => var rest := RunFrom(v.state, addr, run, i + 1); rest.(log := log + rest.log)
        case Stop => Ran(v.state, log, None)
        case Claim =>
          var (s', events) := Answered(v.state, addr, c.name, run.visitAt[i], run.replies[i]);
          if run.replies[i].Pending? then Ran(s', log, Some(i))
          else
            var rest := RunFrom(s', addr, run, i + 1);
            rest.(log := log + Entries(c.name, events) + rest.log)
  }

  function AutoUpdate(s: State, addr: string, run: Run): Ran
    requires run.Valid()
  {
    var (s', busy) := AgentBusy(s, addr, run.jobs, run.busyAt);
    if busy then Ran(s', [], None) else RunFrom(s', addr, run, 0)
  }

  // ---------------------------------------------------------------- the object

  class UpdatePoller {
    var auto: map<string, AutoState>
    var inFlight: map<string, InFlight>

    function Value(): State
      reads this
    {
      State(auto, inFlight)
    }

    constructor ()
      ensures Value() == State(map[], map[])
    {
      auto, inFlight := map[], map[];
    }

    method CheckBusy(addr: string, jobs: Table, now: int) returns (busy: bool)
      modifies this`inFlight
      ensures (Value(), busy) == AgentBusy(old(Value()), addr, jobs, now)
    {
      var todo := jobs.Keys;
      while todo != {}
        invariant todo <= jobs.Keys
        invariant forall n :: n in jobs && n !in todo ==> !UpgradeRunning(jobs, n)
        decreases todo
      {
        var name :| name in todo;
        todo := todo - {name};
        if jobs[name].action == Upgrade && jobs[name].phase == Running {
          assert UpgradeRunning(jobs, name);
          return true;
        }
      }
      if addr !in inFlight {
        return false;
      }
      var f := inFlight[addr];
      if f.name in jobs && jobs[f.name].phase != Running && jobs[f.name].finished > f.prevFinished {
        inFlight := inFlight - {addr};
        return false;
      }
      if now - f.since > IN_FLIGHT_TIMEOUT {
        inFlight := inFlight - {addr};
        return false;
      }
      return true;
    }

    /** The first locked section: account for a finished job, then claim the container and the
        agent unless the container must wait or the agent is claimed. */
    method CheckAndClaim(addr: string, name: string, jobs: Table, now: int)
      returns (verdict: Verdict, events: seq<Event>)
      modifies this
      ensures Visited(Value(), verdict, events) == Visit(old(Value()), addr, name, jobs, now)
    {
      events := [];
      var key := Key(addr, name);
      if key !in auto {
        auto := auto[key := AutoState(None, 0, 0)];
      }
      var st := auto[key];
      if name in jobs && jobs[name].action == Upgrade {
        var j := jobs[name];
        if j.phase == Running {
          return Skip, [];
        }
        if j.finished > st.seenFinished {
          st := st.(seenFinished := j.finished);
          if j.phase == Failed {
            st := st.(failures := st.failures + 1);
            var wait := FailureBackoff(st.failures, j.error);
            st := st.(next := Some(now + wait));
            events := [Failure(now, st.failures, wait, j.error, Some(j.finished))];
          } else {
            st := st.(failures := 0);
            events := [Success(now, Some(j.finished))];
          }
        }
      }
      assert (st, events) == Settle(StateOf(old(Value()), key), jobs, name, now);
      ghost var seen := Visit(old(Value()), addr, name, jobs, now);
      assert seen == Claims(old(Value()), addr, name, FinishedOf(jobs, name), st, events, now);
      hide Settle, FailureBackoff, Visit, UpgradeRunning, StateOf;
      auto := auto[key := st];
      if st.next.Some? && now < st.next.value {
        return Skip, events;
      }
      if addr in inFlight {
        return Stop, events;
      }
      auto := auto[key := st.(next := Some(now + AUTO_COOLDOWN))];
      inFlight := inFlight[addr := InFlight(name, now, if name in jobs then jobs[name].finished else 0)];
      return Claim, events + [Sent(now)];
    }

    /** The second locked section, after the POST for a claim made at claimedAt returned. */
    method AfterPost(addr: string, name: string, claimedAt: int, reply: Reply) returns (events: seq<Event>)
      modifies this
      ensures (Value(), events) == Answered(old(Value()), addr, name, claimedAt, reply)
    {
      events := [];
      match reply {
        case Refused(error) =>
          inFlight := inFlight - {addr};
          var key := Key(addr, name);
          var st := if key in auto then auto[key] else AutoState(None, 0, 0);
          st := st.(failures := st.failures + 1);
          var wait := FailureBackoff(st.failures, error);
          st := st.(next := Some(claimedAt + wait));
          auto := auto[key := st];
          events := [Failure(claimedAt, st.failures, wait, error, None)];
        case Completed =>
          inFlight := inFlight - {addr};
        case Pending =>
      }
    }

    /** One whole run. log lists what it accounted for and sent, in order; started is the
        container left upgrading in the background. */
    method RunAutoUpdates(addr: string, run: Run) returns (log: seq<Entry>, started: Option<nat>)
      requires run.Valid()
      modifies this
      ensures Ran(Value(), log, started) == AutoUpdate(old(Value()), addr, run)
    {
      log, started := [], None;
      hide AgentBusy, Visit, Answered, Entries, AutoUpdated;
      var busy := CheckBusy(addr, run.jobs, run.busyAt);
      if busy {
        return;
      }
      ghost var goal := RunFrom(Value(), addr, run, 0);
      for i := 0 to |run.containers|
        invariant started == None
        invariant var rest := RunFrom(Value(), addr, run, i);
          goal == rest.(log := log + rest.log)
      {
        var c := run.containers[i];
        if !AutoUpdated(run.cfgs[i], addr, c) {
          continue;
        }
        var verdict, events := CheckAndClaim(addr, c.name, run.jobs, run.visitAt[i]);
        log := log + Entries(c.name, events);
        match verdict {
          case Skip =>
          case Stop => return;
          case Claim =>
            events := AfterPost(addr, c.name, run.visitAt[i], run.replies[i]);
            if run.replies[i].Pending? {
              started := Some(i);
              return;
            }
            log := log + Entries(c.name, events);
        }
      }
    }
  }
}
