/** Any number of auto-update runs for one agent, interleaved at lock boundaries.

    A run enters through agentBusy, visits its containers one locked section each, and posts
    between the section that claims and the one that handles the answer. Snapshots are
    arbitrary, and settings are read anew at each container. */
module Interleaving {
  import opened Base
  import opened Jobs
  import opened Poller

  datatype Input = Input(containers: seq<Container>, jobs: Table)

  datatype Thread =
    | Entering(input: Input)
    | Scanning(input: Input, i: nat)
    | Posting(input: Input, i: nat, claimedAt: int)
    | Ended

  // What the threads did to the agent's claim, in order.
  datatype LockEvent = Claimed(id: nat, name: string, at: int) | Released(id: nat)

  datatype World = World(now: int, poller: State, threads: map<nat, Thread>, locks: seq<LockEvent>)

  datatype Step =
    | Arrive(id: nat, input: Input)
    | Enter(id: nat)
    | Scan(id: nat, cfg: Config)
    | Return(id: nat, reply: Reply)
    | Tick(elapsed: nat)

  predicate IsPosting(w: World, id: nat) {
    id in w.threads && w.threads[id].Posting? && w.threads[id].i < |w.threads[id].input.containers|
  }

  function PostedName(w: World, id: nat): string
    requires IsPosting(w, id)
  {
    w.threads[id].input.containers[w.threads[id].i].name
  }

  /** The entering run's snapshot shows the claimed container finished since it was claimed, and
      no upgrade running that would have stopped the run first. */
  predicate ShowsEarlyFinish(addr: string, w: World, id: nat) {
    && id in w.threads && w.threads[id].Entering?
    && addr in w.poller.inFlight
    && ShowsFinish(w.poller.inFlight[addr], w.threads[id].input.jobs)
    && !exists name <- w.threads[id].input.jobs :: UpgradeRunning(w.threads[id].input.jobs, name)
  }

  // What is assumed of the surroundings. orderly: no snapshot shows the claimed container finished
  // while the claiming run's POST has not returned. limit: how long a POST takes at most.
  datatype Rules = Rules(orderly: bool, limit: nat)

  /** Which steps can be taken. */
  predicate Possible(w: World, step: Step) {
    match step
    case Arrive(id, _) => id !in w.threads
    case Enter(id) => id in w.threads && w.threads[id].Entering?
    case Scan(id, _) => id in w.threads && w.threads[id].Scanning?
    case Return(id, _) => IsPosting(w, id)
    case Tick(_) => true
  }

  ghost predicate Allowed(addr: string, w: World, step: Step, rules: Rules) {
    match step
    case Enter(id) => rules.orderly && (exists p :: IsPosting(w, p)) ==> !ShowsEarlyFinish(addr, w, id)
    case Tick(elapsed) => forall id :: IsPosting(w, id) ==> w.now + elapsed - w.threads[id].claimedAt <= rules.limit
    case _ => true
  }

  ghost predicate Enabled(addr: string, w: World, step: Step, rules: Rules) {
    Possible(w, step) && Allowed(addr, w, step, rules)
  }

  ghost function Next(addr: string, w: World, step: Step): World
    requires Possible(w, step)
  {
    match step
    case Arrive(id, input) => w.(threads := w.threads[id := Entering(input)])
    case Enter(id) =>
      var input := w.threads[id].input;
      var (s, busy) := AgentBusy(w.poller, addr, input.jobs, w.now);
      World(w.now, s, w.threads[id := if busy then Ended else Scanning(input, 0)],
            if addr in w.poller.inFlight && addr !in s.inFlight then w.locks + [Released(id)] else w.locks)
    case Scan(id, cfg) =>
      var Scanning(input, i) := w.threads[id];
      if i >= |input.containers| then w.(threads := w.threads[id := Ended])
      else if !AutoUpdated(cfg, addr, input.containers[i]) then w.(threads := w.threads[id := Scanning(input, i + 1)])
      else
        var name := input.containers[i].name;
        var v := Visit(w.poller, addr, name, input.jobs, w.now);
        (match v.verdict
         case Skip => w.(poller := v.state, threads := w.threads[id := Scanning(input, i + 1)])
         case Stop => w.(poller := v.state, threads := w.threads[id := Ended])
         case Claim =>
           World(w.now, v.state, w.threads[id := Posting(input, i, w.now)], w.locks + [Claimed(id, name, w.now)]))
    case Return(id, reply) =>
      var Posting(input, i, claimedAt) := w.threads[id];
      var (s, _) := Answered(w.poller, addr, input.containers[i].name, claimedAt, reply);
      if reply.Pending? then w.(poller := s, threads := w.threads[id := Ended])
      else World(w.now, s, w.threads[id := Scanning(input, i + 1)], w.locks + [Released(id)])
    case Tick(elapsed) => w.(now := w.now + elapsed)
  }

  ghost predicate Legal(addr: string, w: World, steps: seq<Step>, rules: Rules)
    decreases |steps|
  {
    steps == [] ||
    (Enabled(addr, w, steps[0], rules) && Legal(addr, Next(addr, w, steps[0]), steps[1..], rules))
  }

  ghost function After(addr: string, w: World, steps: seq<Step>, rules: Rules): World
    requires Legal(addr, w, steps, rules)
    decreases |steps|
  {
    if steps == [] then w else After(addr, Next(addr, w, steps[0]), steps[1..], rules)
  }

  const START := World(0, State(map[], map[]), map[], [])

  // ---------------------------------------------------------------- what is guaranteed

  /** The claim in place is the one this run made for the container it is posting. */
  ghost predicate Covered(addr: string, w: World, id: nat)
    requires IsPosting(w, id)
  {
    && addr in w.poller.inFlight
    && w.poller.inFlight[addr].name == PostedName(w, id)
    && w.poller.inFlight[addr].since == w.threads[id].claimedAt
    && w.locks != []
    && w.locks[|w.locks| - 1] == Claimed(id, PostedName(w, id), w.threads[id].claimedAt)
  }

  /** Between any two claims the first one was released. */
  ghost predicate ClaimsAlternate(locks: seq<LockEvent>) {
    forall i, j :: 0 <= i < j < |locks| && locks[i].Claimed? && locks[j].Claimed? ==>
      exists k :: i < k < j && locks[k].Released?
  }

  /** No container is claimed, and so none is posted, twice within the cooldown. */
  ghost predicate ClaimsSpaced(locks: seq<LockEvent>) {
    forall i, j :: 0 <= i < j < |locks| && locks[i].Claimed? && locks[j].Claimed? && locks[i].name == locks[j].name ==>
      locks[i].at + AUTO_COOLDOWN <= locks[j].at
  }

  ghost predicate Orderly(addr: string, w: World) {
    && (forall id :: IsPosting(w, id) ==> Covered(addr, w, id))
    && (forall m, n :: IsPosting(w, m) && IsPosting(w, n) ==> m == n)
    && ClaimsAlternate(w.locks)
    && ClaimsSpaced(w.locks)
  }

  // ---------------------------------------------------------------- the invariant

  predicate Held(addr: string, s: State, name: string, until: int) {
    var st := StateOf(s, Key(addr, name));
    st.next.Some? && st.next.value >= until
  }

  ghost predicate ClaimsHeld(addr: string, w: World) {
    forall i :: 0 <= i < |w.locks| && w.locks[i].Claimed? ==>
      w.locks[i].at <= w.now && Held(addr, w.poller, w.locks[i].name, w.locks[i].at + AUTO_COOLDOWN)
  }

  ghost predicate ClaimsInOrder(locks: seq<LockEvent>) {
    forall i, j :: 0 <= i < j < |locks| && locks[i].Claimed? && locks[j].Claimed? ==> locks[i].at <= locks[j].at
  }

  ghost predicate Inv(addr: string, w: World, limit: nat) {
    && (forall id :: IsPosting(w, id) ==> Covered(addr, w, id) && w.now - w.threads[id].claimedAt <= limit)
    && (forall id :: id in w.threads && w.threads[id].Posting? ==> IsPosting(w, id))
    && (addr in w.poller.inFlight <==> w.locks != [] && w.locks[|w.locks| - 1].Claimed?)
    && ClaimsAlternate(w.locks) && ClaimsSpaced(w.locks) && ClaimsInOrder(w.locks)
    && ClaimsHeld(addr, w)
  }

  /** Holds are only ever pushed back while a container is visited. */
  lemma VisitHolds(addr: string, s: State, visited: string, jobs: Table, now: int, name: string, t: int)
    requires Held(addr, s, name, t + AUTO_COOLDOWN) && t <= now
    ensures Held(addr, Visit(s, addr, visited, jobs, now).state, name, t + AUTO_COOLDOWN)
    ensures Visit(s, addr, visited, jobs, now).verdict == Claim && visited == name ==> t + AUTO_COOLDOWN <= now
  {
    if visited != name && Key(addr, visited) == Key(addr, name) {
      KeyInjective(addr, visited, name);
    }
  }

  lemma AnswerHolds(addr: string, s: State, posted: string, claimedAt: int, reply: Reply, name: string, t: int)
    requires Held(addr, s, name, t + AUTO_COOLDOWN) && t <= claimedAt
    ensures Held(addr, Answered(s, addr, posted, claimedAt, reply).0, name, t + AUTO_COOLDOWN)
  {
    if posted != name && Key(addr, posted) == Key(addr, name) {
      KeyInjective(addr, posted, name);
    }
  }

  lemma AlternateRelease(locks: seq<LockEvent>, id: nat)
    requires ClaimsAlternate(locks)
    ensures ClaimsAlternate(locks + [Released(id)])
  {
    var ls := locks + [Released(id)];
    forall i, j | 0 <= i < j < |ls| && ls[i].Claimed? && ls[j].Claimed?
      ensures exists k :: i < k < j && ls[k].Released?
    {
      var k :| i < k < j && locks[k].Released?;
      assert ls[k].Released?;
    }
  }

  lemma AlternateClaim(locks: seq<LockEvent>, c: LockEvent)
    requires ClaimsAlternate(locks) && c.Claimed?
    requires locks == [] || locks[|locks| - 1].Released?
    ensures ClaimsAlternate(locks + [c])
  {
    var ls := locks + [c];
    forall i, j | 0 <= i < j < |ls| && ls[i].Claimed? && ls[j].Claimed?
      ensures exists k :: i < k < j && ls[k].Released?
    {
      if j < |locks| {
        var k :| i < k < j && locks[k].Released?;
        assert ls[k].Released?;
      } else {
        assert ls[|locks| - 1].Released?;
      }
    }
  }

  /** agentBusy drops the claim only while nobody posts. */
  lemma NoneReleasedInUse(addr: string, w: World, id: nat, limit: nat)
    requires Inv(addr, w, limit) && limit <= IN_FLIGHT_TIMEOUT && Enabled(addr, w, Enter(id), Rules(true, limit))
    requires Next(addr, w, Enter(id)).locks != w.locks
    ensures forall p :: !IsPosting(w, p)
  {
    assert forall p :: IsPosting(w, p) ==> Covered(addr, w, p);
  }

  lemma EnterKeepsInv(addr: string, w: World, id: nat, limit: nat)
    requires Inv(addr, w, limit) && limit <= IN_FLIGHT_TIMEOUT && Enabled(addr, w, Enter(id), Rules(true, limit))
    ensures Inv(addr, Next(addr, w, Enter(id)), limit)
  {
    var w' := Next(addr, w, Enter(id));
    assert w'.poller.auto == w.poller.auto;
    forall n, t | Held(addr, w.poller, n, t) ensures Held(addr, w'.poller, n, t) {}
    if w'.locks != w.locks {
      AlternateRelease(w.locks, id);
      NoneReleasedInUse(addr, w, id, limit);
    }
    assert forall p :: IsPosting(w', p) ==> IsPosting(w, p) && w'.threads[p] == w.threads[p];
  }

  /** Threads that are not posting in the next world leave the posters as they were. */
  lemma SamePosters(addr: string, w: World, w': World, limit: nat)
    requires Inv(addr, w, limit)
    requires w'.now == w.now && w'.poller.inFlight == w.poller.inFlight && w'.locks == w.locks
    requires forall p :: p in w'.threads && w'.threads[p].Posting? ==> p in w.threads && w'.threads[p] == w.threads[p]
    requires ClaimsHeld(addr, w')
    ensures Inv(addr, w', limit)
  {
    assert forall p :: IsPosting(w', p) ==> IsPosting(w, p) && w'.threads[p] == w.threads[p] && Covered(addr, w, p);
  }

  lemma ClaimKeepsInv(addr: string, w: World, id: nat, input: Input, i: nat, name: string, v: Visited, limit: nat)
    requires Inv(addr, w, limit) && id in w.threads && i < |input.containers| && input.containers[i].name == name
    requires v == Visit(w.poller, addr, name, input.jobs, w.now) && v.verdict == Claim
    ensures Inv(addr, World(w.now, v.state, w.threads[id := Posting(input, i, w.now)], w.locks + [Claimed(id, name, w.now)]), limit)
  {
    var w' := World(w.now, v.state, w.threads[id := Posting(input, i, w.now)], w.locks + [Claimed(id, name, w.now)]);
    VisitKeepsHeld(addr, w, input, name);
    AlternateClaim(w.locks, Claimed(id, name, w.now));
    assert forall p :: IsPosting(w, p) ==> Covered(addr, w, p);
    assert forall p :: p in w'.threads && w'.threads[p].Posting? ==> p == id || IsPosting(w, p);
  }

  lemma VisitKeepsHeld(addr: string, w: World, input: Input, name: string)
    requires ClaimsHeld(addr, w)
    ensures var v := Visit(w.poller, addr, name, input.jobs, w.now);
      forall k :: 0 <= k < |w.locks| && w.locks[k].Claimed? ==>
        && Held(addr, v.state, w.locks[k].name, w.locks[k].at + AUTO_COOLDOWN)
        && (v.verdict == Claim && name == w.locks[k].name ==> w.locks[k].at + AUTO_COOLDOWN <= w.now)
  {
    hide Visit;
    forall k | 0 <= k < |w.locks| && w.locks[k].Claimed?
      ensures var v := Visit(w.poller, addr, name, input.jobs, w.now);
        && Held(addr, v.state, w.locks[k].name, w.locks[k].at + AUTO_COOLDOWN)
        && (v.verdict == Claim && name == w.locks[k].name ==> w.locks[k].at + AUTO_COOLDOWN <= w.now)
    {
      VisitHolds(addr, w.poller, name, input.jobs, w.now, w.locks[k].name, w.locks[k].at);
    }
  }

  lemma ScanKeepsInv(addr: string, w: World, id: nat, cfg: Config, limit: nat)
    requires Inv(addr, w, limit) && Enabled(addr, w, Scan(id, cfg), Rules(true, limit))
    ensures Inv(addr, Next(addr, w, Scan(id, cfg)), limit)
  {
    hide Inv;
    var w' := Next(addr, w, Scan(id, cfg));
    var Scanning(input, i) := w.threads[id];
    InvHeld(addr, w, limit);
    if i < |input.containers| && AutoUpdated(cfg, addr, input.containers[i]) {
      var name := input.containers[i].name;
      var v := Visit(w.poller, addr, name, input.jobs, w.now);
      VisitKeepsHeld(addr, w, input, name);
      if v.verdict == Claim {
        ClaimKeepsInv(addr, w, id, input, i, name, v, limit);
      } else {
        SamePosters(addr, w, w', limit);
      }
    } else {
      SamePosters(addr, w, w', limit);
    }
  }

  lemma InvHeld(addr: string, w: World, limit: nat)
    requires Inv(addr, w, limit)
    ensures ClaimsHeld(addr, w)
  {
  }

  lemma ReturnKeepsInv(addr: string, w: World, id: nat, reply: Reply, limit: nat)
    requires Inv(addr, w, limit) && Possible(w, Return(id, reply))
    ensures Inv(addr, Next(addr, w, Return(id, reply)), limit)
  {
    var w' := Next(addr, w, Return(id, reply));
    var Posting(input, i, claimedAt) := w.threads[id];
    assert Covered(addr, w, id);
    forall k | 0 <= k < |w.locks| && w.locks[k].Claimed?
      ensures Held(addr, w'.poller, w.locks[k].name, w.locks[k].at + AUTO_COOLDOWN)
    {
      AnswerHolds(addr, w.poller, input.containers[i].name, claimedAt, reply, w.locks[k].name, w.locks[k].at);
    }
    AlternateRelease(w.locks, id);
    assert forall p :: IsPosting(w, p) ==> Covered(addr, w, p);
  }

  lemma StepKeepsInv(addr: string, w: World, step: Step, limit: nat)
    requires Inv(addr, w, limit) && limit <= IN_FLIGHT_TIMEOUT && Enabled(addr, w, step, Rules(true, limit))
    ensures Inv(addr, Next(addr, w, step), limit)
  {
    match step
    case Enter(id) => EnterKeepsInv(addr, w, id, limit);
    case Scan(id, cfg) => ScanKeepsInv(addr, w, id, cfg, limit);
    case Return(id, reply) => ReturnKeepsInv(addr, w, id, reply, limit);
    case Arrive(id, input) =>
      var w' := Next(addr, w, step);
      assert forall p :: IsPosting(w', p) ==> IsPosting(w, p) && w'.threads[p] == w.threads[p];
    case Tick(elapsed) =>
      var w' := Next(addr, w, step);
      assert forall p :: IsPosting(w', p) <==> IsPosting(w, p);
  }

  // ---------------------------------------------------------------- main results

  /** In any interleaving every POST in progress is covered by the claim its own run made, no
      two runs post at once, claims alternate with releases, and no container is posted twice
      within the cooldown. */
  lemma {:induction false} EveryInterleavingIsOrderly(addr: string, w: World, steps: seq<Step>, limit: nat)
    requires limit <= IN_FLIGHT_TIMEOUT
    requires Inv(addr, w, limit) && Legal(addr, w, steps, Rules(true, limit))
    ensures Orderly(addr, After(addr, w, steps, Rules(true, limit)))
    decreases |steps|
  {
    if steps != [] {
      StepKeepsInv(addr, w, steps[0], limit);
      EveryInterleavingIsOrderly(addr, Next(addr, w, steps[0]), steps[1..], limit);
    } else {
      InvIsOrderly(addr, w, limit);
    }
  }

  lemma InvIsOrderly(addr: string, w: World, limit: nat)
    requires Inv(addr, w, limit)
    ensures Orderly(addr, w)
  {
    forall m, n | IsPosting(w, m) && IsPosting(w, n) ensures m == n {
      assert Covered(addr, w, m) && Covered(addr, w, n);
    }
  }

  ghost predicate AlwaysOrderly(addr: string, rules: Rules) {
    forall steps :: Legal(addr, START, steps, rules) ==> Orderly(addr, After(addr, START, steps, rules))
  }

  /** Both assumptions are needed, and with them every run is orderly: that snapshots do not show
      a finish early, and that a POST ends within the claim's timeout. */
  lemma AlwaysOrderlyExactly(addr: string, rules: Rules)
    ensures AlwaysOrderly(addr, rules) <==> rules.orderly && rules.limit <= IN_FLIGHT_TIMEOUT
  {
    if !rules.orderly {
      EarlyFinishDropsAnotherClaim(addr, rules.limit);
    } else if rules.limit > IN_FLIGHT_TIMEOUT {
      LatePostLosesItsClaim(addr, rules.limit);
    } else {
      forall steps | Legal(addr, START, steps, rules) ensures Orderly(addr, After(addr, START, steps, rules)) {
        EveryInterleavingIsOrderly(addr, START, steps, rules.limit);
      }
    }
  }

  /** The HTTP client gives up on a POST well before that. */
  lemma FromTheStart(addr: string, steps: seq<Step>)
    requires Legal(addr, START, steps, Rules(true, POST_TIMEOUT))
    ensures Orderly(addr, After(addr, START, steps, Rules(true, POST_TIMEOUT)))
  {
    EveryInterleavingIsOrderly(addr, START, steps, POST_TIMEOUT);
  }

  /** A posting run stays covered when another enters exactly if the other's snapshot does not
      show the claimed container finished; the timeout alone never drops a claim in use. */
  lemma EnteringKeepsCoverExactly(addr: string, w: World, poster: nat, id: nat, limit: nat)
    requires limit <= IN_FLIGHT_TIMEOUT && Inv(addr, w, limit) && IsPosting(w, poster) && Possible(w, Enter(id))
    ensures var w' := Next(addr, w, Enter(id));
      IsPosting(w', poster) && (Covered(addr, w', poster) <==> !ShowsEarlyFinish(addr, w, id))
  {
    assert Covered(addr, w, poster);
  }

  /** Every state of the run, its last included, covers those who post. */
  ghost predicate CoveredThroughout(addr: string, w: World, steps: seq<Step>, rules: Rules)
    requires Legal(addr, w, steps, rules)
    decreases |steps|
  {
    && (forall id :: IsPosting(w, id) ==> Covered(addr, w, id))
    && (steps != [] ==> CoveredThroughout(addr, Next(addr, w, steps[0]), steps[1..], rules))
  }

  /** The same for one given run on arbitrary snapshots: its POSTs are covered all the way exactly
      if no run ever enters on a snapshot that shows the claimed container finished early. */
  lemma {:induction false} CoveredExactlyWhenOrderly(addr: string, w: World, steps: seq<Step>, limit: nat)
    requires limit <= IN_FLIGHT_TIMEOUT && Inv(addr, w, limit) && Legal(addr, w, steps, Rules(false, limit))
    ensures CoveredThroughout(addr, w, steps, Rules(false, limit)) <==> Legal(addr, w, steps, Rules(true, limit))
    decreases |steps|
  {
    if steps != [] {
      var step, w' := steps[0], Next(addr, w, steps[0]);
      if Enabled(addr, w, step, Rules(true, limit)) {
        StepKeepsInv(addr, w, step, limit);
        CoveredExactlyWhenOrderly(addr, w', steps[1..], limit);
      } else {
        var p :| IsPosting(w, p);
        EnteringKeepsCoverExactly(addr, w, p, step.id, limit);
        assert IsPosting(w', p) && !Covered(addr, w', p);
      }
    }
  }

  // ---------------------------------------------------------------- why both are needed

  const WEB := Container("c1", "web", "running", true)
  const DB := Container("c2", "db", "running", true)

  function Only(addr: string, c: Container): Config {
    Config([], map[Key(addr, c.name) := true])
  }

  /** A snapshot with a pull of web, started by hand, that finished after web was claimed. */
  const PULLED: Table := map["web" := Job(Pull, Succeeded, "", 1, 2)]

  /** A run posts web; another, whose snapshot shows a hand-started job of web finished, posts
      db meanwhile; the first one's POST fails and drops the second one's claim. */
  function DroppedClaim(addr: string): seq<Step> {
    [Arrive(1, Input([WEB], map[])), Enter(1), Scan(1, Only(addr, WEB)),
     Arrive(2, Input([DB], PULLED)), Enter(2), Scan(2, Only(addr, DB)), Return(1, Refused(""))]
  }

  /** A POST outlives the timeout of the claim made for it, and the next run drops the claim. */
  function LatePost(addr: string): seq<Step> {
    [Arrive(1, Input([WEB], map[])), Enter(1), Scan(1, Only(addr, WEB)),
     Tick(IN_FLIGHT_TIMEOUT + 1), Arrive(2, Input([DB], map[])), Enter(2)]
  }

  lemma ClaimFirst(addr: string, w: World, id: nat, input: Input, c: Container)
    requires id in w.threads && w.threads[id] == Scanning(input, 0) && input.containers == [c]
    requires AutoUpdated(Only(addr, c), addr, c) && addr !in w.poller.inFlight && Key(addr, c.name) !in w.poller.auto
    requires c.name !in input.jobs
    ensures Next(addr, w, Scan(id, Only(addr, c)))
         == World(w.now, State(w.poller.auto[Key(addr, c.name) := AutoState(Some(w.now + AUTO_COOLDOWN), 0, 0)],
                               w.poller.inFlight[addr := InFlight(c.name, w.now, 0)]),
                  w.threads[id := Posting(input, 0, w.now)], w.locks + [Claimed(id, c.name, w.now)])
  {
  }

  lemma EarlyFinishDropsAnotherClaim(addr: string, limit: nat)
    ensures Legal(addr, START, DroppedClaim(addr), Rules(false, limit))
    ensures var w := After(addr, START, DroppedClaim(addr), Rules(false, limit));
      IsPosting(w, 2) && addr !in w.poller.inFlight && !Covered(addr, w, 2)
  {
    hide Legal, After, Visit, AutoUpdated;
    var steps := DroppedClaim(addr);
    assert |Key(addr, "web")| != |Key(addr, "db")|;
    BothUpdated(addr);
    var w1 := Next(addr, START, steps[0]);
    var w2 := Next(addr, w1, steps[1]);
    ClaimFirst(addr, w2, 1, steps[0].input, WEB);
    var w3 := Next(addr, w2, steps[2]);
    var w4 := Next(addr, w3, steps[3]);
    var w5 := Next(addr, w4, steps[4]);
    ClaimFirst(addr, w5, 2, steps[3].input, DB);
    var w6 := Next(addr, w5, steps[5]);
    var w7 := Next(addr, w6, steps[6]);
    Chain(addr, steps, [START, w1, w2, w3, w4, w5, w6, w7], Rules(false, limit));
  }

  lemma LatePostLosesItsClaim(addr: string, limit: nat)
    requires limit > IN_FLIGHT_TIMEOUT
    ensures Legal(addr, START, LatePost(addr), Rules(true, limit))
    ensures var w := After(addr, START, LatePost(addr), Rules(true, limit));
      IsPosting(w, 1) && addr !in w.poller.inFlight && !Covered(addr, w, 1)
  {
    hide Legal, After, Visit, AutoUpdated;
    var steps := LatePost(addr);
    BothUpdated(addr);
    var w1 := Next(addr, START, steps[0]);
    var w2 := Next(addr, w1, steps[1]);
    ClaimFirst(addr, w2, 1, steps[0].input, WEB);
    var w3 := Next(addr, w2, steps[2]);
    var w4 := Next(addr, w3, steps[3]);
    var w5 := Next(addr, w4, steps[4]);
    var w6 := Next(addr, w5, steps[5]);
    Chain(addr, steps, [START, w1, w2, w3, w4, w5, w6], Rules(true, limit));
  }

  lemma BothUpdated(addr: string)
    ensures AutoUpdated(Only(addr, WEB), addr, WEB) && AutoUpdated(Only(addr, DB), addr, DB)
  {
  }

  /** A run given state by state is a legal one that ends in its last state. */
  lemma {:induction false} Chain(addr: string, steps: seq<Step>, ws: seq<World>, rules: Rules)
    requires |ws| == |steps| + 1
    requires forall i :: 0 <= i < |steps| ==> Enabled(addr, ws[i], steps[i], rules) && ws[i + 1] == Next(addr, ws[i], steps[i])
    ensures Legal(addr, ws[0], steps, rules) && After(addr, ws[0], steps, rules) == ws[|steps|]
    decreases |steps|
  {
    if steps != [] {
      Chain(addr, steps[1..], ws[1..], rules);
    }
  }
}
