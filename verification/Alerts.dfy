/** The crash-alert state machine of one container (internal/dashboard/notifier.go).

    Observe is one turn of the loop in Check, with every clock reading it takes. A track adds
    what the source forgets: everything that happened, in order. */
module Alerts {
  import opened Base

  const LOOP_THRESHOLD := 2
  const LOOP_WINDOW := 15 * MINUTE
  const ALERT_COOLDOWN := 5 * MINUTE
  const RECOVERY_DURATION := 10 * MINUTE

  datatype Report = Report(name: string, state: string, restarts: int, exitCode: int, oom: bool)

  // The readings one turn takes, in this order; the clock never goes back.
  datatype Readings = Readings(stable: int, recover: int, exit: int, crash: int, cool: int)
  {
    predicate Valid(from: int, to: int) {
      from <= stable <= recover <= exit <= crash <= cool <= to
    }
  }

  datatype Alert = Alert(suppressed: bool, prevState: string, prevRestarts: int,
                         crashTimes: seq<int>, lastAlert: Option<int>, stableFrom: Option<int>)

  datatype Kind = OomRestarted | Restarted | OomStopped | Crashed

  // Lifted ends a suppression; its notification is sent unless notifications are off or muted.
  datatype Event =
    | Single(at: int, kind: Kind)
    | Loop(at: int, crashes: nat)
    | Lifted(at: int, sent: bool)

  /** What counts as a crash, given the previous report. */
  function Classify(a: Alert, r: Report, intentional: bool): Option<Kind> {
    if r.restarts > a.prevRestarts then Some(if r.oom then OomRestarted else Restarted)
    else if a.prevState == "running" && (r.state == "exited" || r.state == "dead") then
      if r.oom then Some(OomStopped)
      else if r.exitCode != 0 && !intentional then Some(Crashed)
      else None
    else None
  }

  /** The times within the loop window before now. */
  function Recent(times: seq<int>, now: int): seq<int> {
    if times == [] then []
    else (if now - times[0] < LOOP_WINDOW then [times[0]] else []) + Recent(times[1..], now)
  }

  function Stabilised(a: Alert, r: Report, now: int): Alert {
    var stable := r.state == "running" && r.restarts == a.prevRestarts;
    a.(prevState := r.state, prevRestarts := r.restarts,
       stableFrom := if !stable then None else if a.stableFrom.None? then Some(now) else a.stableFrom)
  }

  predicate Recovers(a: Alert, now: int) {
    a.suppressed && a.stableFrom.Some? && now - a.stableFrom.value >= RECOVERY_DURATION
  }

  datatype Turn = Turn(alert: Alert, events: seq<Event>, recovered: bool, recorded: bool)

  /** Records a crash and decides what to say about it. */
  function Record(a: Alert, kind: Kind, t: Readings): (Alert, seq<Event>) {
    var a' := a.(crashTimes := Recent(a.crashTimes, t.crash) + [t.crash]);
    if a'.suppressed then (a', [])
    else if |a'.crashTimes| >= LOOP_THRESHOLD then (a'.(suppressed := true), [Loop(t.crash, |a'.crashTimes|)])
    else if a'.lastAlert.Some? && t.cool - a'.lastAlert.value < ALERT_COOLDOWN then (a', [])
    else (a'.(lastAlert := Some(t.crash)), [Single(t.crash, kind)])
  }

  /** One turn for a container seen before. speak: a URL is set and nothing mutes this host. */
  function Observe(a: Alert, r: Report, intentional: bool, speak: bool, t: Readings): Turn {
    var a1 := Stabilised(a, r, t.stable);
    var recovered := Recovers(a1, t.recover);
    var a2 := if recovered then a1.(suppressed := false, crashTimes := []) else a1;
    var lifted := if recovered then [Lifted(t.recover, speak)] else [];
    var kind := Classify(a, r, intentional);
    if kind.None? || !speak then Turn(a2, lifted, recovered, false)
    else
      var (a3, said) := Record(a2, kind.value, t);
      Turn(a3, lifted + said, recovered, true)
  }

  // ---------------------------------------------------------------- full histories

  datatype Sighting = Sighting(at: int, state: string, restarts: int)

  // crashes: every crash recorded since suppression was last lifted, unpruned.
  datatype Track = Track(alert: Alert, log: seq<Event>, crashes: seq<int>, seen: seq<Sighting>)

  function FirstSight(r: Report, at: int): Track {
    Track(Alert(false, r.state, r.restarts, [], None, None), [], [], [Sighting(at, r.state, r.restarts)])
  }

  function Advance(k: Track, r: Report, intentional: bool, speak: bool, t: Readings): Track {
    var turn := Observe(k.alert, r, intentional, speak, t);
    Track(turn.alert, k.log + turn.events,
          (if turn.recovered then [] else k.crashes) + (if turn.recorded then [t.crash] else []),
          k.seen + [Sighting(t.stable, r.state, r.restarts)])
  }

  /** Two crashes within the loop window of each other. */
  ghost predicate HasPair(crashes: seq<int>) {
    exists i, j :: 0 <= i < j < |crashes| && crashes[j] - crashes[i] < LOOP_WINDOW
  }

  /** Seen running, with the restart count of the sighting before. */
  predicate Steady(seen: seq<Sighting>, i: nat) {
    1 <= i < |seen| && seen[i].state == "running" && seen[i].restarts == seen[i - 1].restarts
  }

  /** Every sighting since some moment at least that long before now was steady. */
  ghost predicate SteadyFor(seen: seq<Sighting>, now: int, duration: int) {
    exists k :: 0 <= k < |seen| && seen[k].at <= now - duration && forall i :: k <= i < |seen| ==> Steady(seen, i)
  }

  // ---------------------------------------------------------------- logs

  ghost predicate InOrder(log: seq<Event>) {
    forall i, j :: 0 <= i < j < |log| ==> log[i].at <= log[j].at
  }

  /** Single alerts are a loop window apart, a crash loop is followed only by its end, no sooner
      than the recovery time, and nothing else is ended. */
  predicate MayFollow(e: Event, f: Event) {
    match e
    case Single(_, _) => !f.Lifted? && (f.Single? ==> e.at + LOOP_WINDOW <= f.at)
    case Loop(_, _) => f.Lifted? && e.at + RECOVERY_DURATION <= f.at
    case Lifted(_, _) => !f.Lifted?
  }

  ghost predicate Alternates(log: seq<Event>) {
    && (log != [] ==> !log[0].Lifted?)
    && forall i :: 0 < i < |log| ==> MayFollow(log[i - 1], log[i])
  }

  lemma Shorter(log: seq<Event>)
    requires log != [] && InOrder(log) && Alternates(log)
    ensures InOrder(log[..|log| - 1]) && Alternates(log[..|log| - 1])
  {
  }

  predicate SameKind(e: Event, f: Event) {
    (e.Single? && f.Single?) || (e.Loop? && f.Loop?) || (e.Lifted? && f.Lifted?)
  }

  /** Events of one kind are at least the recovery time apart; single alerts are the whole loop
      window apart when no suppression lies between. */
  lemma KindsSpaced(log: seq<Event>, i: nat, j: nat)
    requires InOrder(log) && Alternates(log) && i < j < |log| && SameKind(log[i], log[j])
    ensures log[i].at + RECOVERY_DURATION <= log[j].at
    ensures log[i].Single? && (forall k :: i < k < j ==> !log[k].Loop?) ==> log[i].at + LOOP_WINDOW <= log[j].at
  {
    assert MayFollow(log[i], log[i + 1]);
    if log[i].Lifted? {
      assert MayFollow(log[j - 1], log[j]);
    } else if log[i].Single? && log[i + 1].Loop? {
      assert MayFollow(log[i + 1], log[i + 2]);
    }
  }

  function LastSingle(log: seq<Event>): Option<int> {
    if log == [] then None
    else if log[|log| - 1].Single? then Some(log[|log| - 1].at)
    else LastSingle(log[..|log| - 1])
  }

  lemma {:induction false} LastSingleIndex(log: seq<Event>) returns (i: nat)
    requires LastSingle(log).Some?
    ensures i < |log| && log[i].Single? && log[i].at == LastSingle(log).value
    ensures forall k :: i < k < |log| ==> !log[k].Single?
    decreases |log|
  {
    i := |log| - 1;
    if !log[i].Single? {
      i := LastSingleIndex(log[..i]);
    }
  }

  // ---------------------------------------------------------------- the invariant

  ghost predicate Sorted(times: seq<int>) {
    forall i, j :: 0 <= i < j < |times| ==> times[i] <= times[j]
  }

  function Last(times: seq<int>): int
    requires times != []
  {
    times[|times| - 1]
  }

  /** The pruned window is the full history's recent part. */
  ghost predicate WindowRefines(k: Track) {
    && Sorted(k.crashes)
    && k.alert.crashTimes == (if k.crashes == [] then [] else Recent(k.crashes, Last(k.crashes)))
    && (k.alert.suppressed <==> HasPair(k.crashes))
  }

  ghost predicate LogFits(k: Track) {
    && InOrder(k.log) && Alternates(k.log)
    && k.alert.lastAlert == LastSingle(k.log)
    && (k.alert.suppressed <==> k.log != [] && k.log[|k.log| - 1].Loop?)
    && (k.log != [] && !k.log[|k.log| - 1].Lifted? ==> k.log[|k.log| - 1].at in k.crashes)
  }

  ghost predicate SeenInOrder(seen: seq<Sighting>) {
    forall i, j :: 0 <= i < j < |seen| ==> seen[i].at <= seen[j].at
  }

  /** The steady sightings in a row that end with the last begin at position i. */
  ghost predicate SteadyFrom(seen: seq<Sighting>, i: int) {
    && 1 <= i < |seen| && !Steady(seen, i - 1)
    && forall j :: i <= j < |seen| ==> Steady(seen, j)
  }

  ghost predicate StabilityFits(k: Track) {
    && k.seen != [] && SeenInOrder(k.seen)
    && k.alert.prevState == k.seen[|k.seen| - 1].state && k.alert.prevRestarts == k.seen[|k.seen| - 1].restarts
    && (k.alert.stableFrom.None? ==> !Steady(k.seen, |k.seen| - 1))
    && (k.alert.stableFrom.Some? ==>
         && (forall c :: c in k.crashes ==> c <= k.alert.stableFrom.value)
         && exists i :: SteadyFrom(k.seen, i) && k.seen[i].at == k.alert.stableFrom.value)
  }

  ghost predicate Past(k: Track, now: int) {
    && (forall c :: c in k.crashes ==> c <= now)
    && (forall i :: 0 <= i < |k.log| ==> k.log[i].at <= now)
    && (k.alert.stableFrom.Some? ==> k.alert.stableFrom.value <= now)
    && (forall i :: 0 <= i < |k.seen| ==> k.seen[i].at <= now)
  }

  ghost predicate Inv(k: Track, now: int) {
    WindowRefines(k) && LogFits(k) && StabilityFits(k) && Past(k, now)
  }

  lemma FirstSightInv(r: Report, at: int)
    ensures Inv(FirstSight(r, at), at)
  {
  }

  // ---------------------------------------------------------------- the window

  lemma {:induction false} RecentSplit(a: seq<int>, b: seq<int>, now: int)
    ensures Recent(a + b, now) == Recent(a, now) + Recent(b, now)
  {
    if a == [] {
      assert a + b == b;
    } else {
      assert (a + b)[1..] == a[1..] + b;
      RecentSplit(a[1..], b, now);
    }
  }

  /** Pruning an already pruned window later loses nothing. */
  lemma {:induction false} RecentOfRecent(times: seq<int>, was: int, now: int)
    requires was <= now
    ensures Recent(Recent(times, was), now) == Recent(times, now)
  {
    if times != [] {
      RecentOfRecent(times[1..], was, now);
      RecentSplit(if was - times[0] < LOOP_WINDOW then [times[0]] else [], Recent(times[1..], was), now);
    }
  }

  lemma {:induction false} RecentEmpty(times: seq<int>, now: int)
    ensures Recent(times, now) == [] <==> forall i :: 0 <= i < |times| ==> now - times[i] >= LOOP_WINDOW
  {
    if times != [] {
      RecentEmpty(times[1..], now);
      if Recent(times[1..], now) == [] {
        assert forall i :: 1 <= i < |times| ==> times[i] == times[1..][i - 1];
      } else {
        var i :| 0 <= i < |times[1..]| && now - times[1..][i] < LOOP_WINDOW;
        assert times[i + 1] == times[1..][i];
      }
    }
  }

  lemma WindowKept(crashes: seq<int>, window: seq<int>, now: int)
    requires forall c :: c in crashes ==> c <= now
    requires window == if crashes == [] then [] else Recent(crashes, Last(crashes))
    ensures Recent(window, now) == Recent(crashes, now)
    ensures Recent(crashes + [now], now) == Recent(crashes, now) + [now]
  {
    if crashes != [] {
      assert Last(crashes) in crashes;
      RecentOfRecent(crashes, Last(crashes), now);
    }
    RecentSplit(crashes, [now], now);
    assert Recent([now], now) == [now] + Recent([], now);
  }

  lemma PairMade(crashes: seq<int>, now: int)
    ensures HasPair(crashes + [now]) <==> HasPair(crashes) || Recent(crashes, now) != []
  {
    var more := crashes + [now];
    RecentEmpty(crashes, now);
    if HasPair(crashes) {
      var i, j :| 0 <= i < j < |crashes| && crashes[j] - crashes[i] < LOOP_WINDOW;
      assert more[j] - more[i] < LOOP_WINDOW;
    }
    if Recent(crashes, now) != [] {
      var i :| 0 <= i < |crashes| && now - crashes[i] < LOOP_WINDOW;
      assert more[|crashes|] - more[i] < LOOP_WINDOW;
    }
  }

  /** A recorded crash keeps the window in step with the history, and the pruned window is at
      the loop threshold exactly when the new crash makes a pair. */
  lemma WindowStep(k: Track, now: int)
    requires WindowRefines(k) && forall c :: c in k.crashes ==> c <= now
    ensures var window := Recent(k.alert.crashTimes, now) + [now];
      && Sorted(k.crashes + [now])
      && window == Recent(k.crashes + [now], now)
      && (HasPair(k.crashes + [now]) <==> HasPair(k.crashes) || |window| >= LOOP_THRESHOLD)
  {
    hide HasPair, Recent;
    assert forall i :: 0 <= i < |k.crashes| ==> k.crashes[i] in k.crashes;
    WindowKept(k.crashes, k.alert.crashTimes, now);
    PairMade(k.crashes, now);
  }

  // ---------------------------------------------------------------- one turn

  /** The track after the first half of a turn: stability updated, suppression perhaps lifted. */
  function Halfway(k: Track, r: Report, speak: bool, t: Readings): Track {
    var a1 := Stabilised(k.alert, r, t.stable);
    var seen := k.seen + [Sighting(t.stable, r.state, r.restarts)];
    if Recovers(a1, t.recover) then
      Track(a1.(suppressed := false, crashTimes := []), k.log + [Lifted(t.recover, speak)], [], seen)
    else Track(a1, k.log, k.crashes, seen)
  }

  lemma SteadyStep(k: Track, r: Report, at: int)
    requires StabilityFits(k) && forall i :: 0 <= i < |k.seen| ==> k.seen[i].at <= at
    requires forall c :: c in k.crashes ==> c <= at
    ensures StabilityFits(Track(Stabilised(k.alert, r, at), k.log, k.crashes, k.seen + [Sighting(at, r.state, r.restarts)]))
  {
    var a1, seen := Stabilised(k.alert, r, at), k.seen + [Sighting(at, r.state, r.restarts)];
    assert forall i: nat :: i < |k.seen| ==> Steady(seen, i) == Steady(k.seen, i);
    assert Steady(seen, |k.seen|) <==> a1.stableFrom.Some?;
    if a1.stableFrom.Some? {
      if k.alert.stableFrom.Some? {
        var i :| SteadyFrom(k.seen, i) && k.seen[i].at == k.alert.stableFrom.value;
        assert SteadyFrom(seen, i) && seen[i].at == a1.stableFrom.value;
      } else {
        assert SteadyFrom(seen, |k.seen|) && seen[|k.seen|].at == a1.stableFrom.value;
      }
    }
  }

  lemma StabilityStep(k: Track, r: Report, t: Readings, was: int)
    requires Inv(k, was) && was <= t.stable
    ensures var a1 := Stabilised(k.alert, r, t.stable);
      var k1 := Track(a1, k.log, k.crashes, k.seen + [Sighting(t.stable, r.state, r.restarts)]);
      Inv(k1, t.stable)
  {
    SteadyStep(k, r, t.stable);
    hide StabilityFits, HasPair, Recent, Alternates, InOrder, Sorted, LastSingle;
  }

  lemma HalfwayInv(k: Track, r: Report, speak: bool, t: Readings, was: int)
    requires Inv(k, was) && was <= t.stable <= t.recover
    ensures Inv(Halfway(k, r, speak, t), t.recover)
    ensures var h := Halfway(k, r, speak, t);
      h.log != k.log ==> SteadyFor(h.seen, t.recover, RECOVERY_DURATION)
  {
    StabilityStep(k, r, t, was);
    var k1 := Track(Stabilised(k.alert, r, t.stable), k.log, k.crashes, k.seen + [Sighting(t.stable, r.state, r.restarts)]);
    if Recovers(k1.alert, t.recover) {
      LiftInv(k1, speak, t.stable, t.recover);
    }
  }

  /** The stability timer has run for the recovery time exactly if every sighting over at least
      that long was steady. */
  lemma TimerExactly(k: Track, now: int)
    requires StabilityFits(k)
    ensures k.alert.stableFrom.Some? && now - k.alert.stableFrom.value >= RECOVERY_DURATION
       <==> SteadyFor(k.seen, now, RECOVERY_DURATION)
  {
    if k.alert.stableFrom.Some? {
      var i :| SteadyFrom(k.seen, i) && k.seen[i].at == k.alert.stableFrom.value;
      if SteadyFor(k.seen, now, RECOVERY_DURATION) {
        var m :| 0 <= m < |k.seen| && k.seen[m].at <= now - RECOVERY_DURATION
                 && forall j :: m <= j < |k.seen| ==> Steady(k.seen, j);
        assert !Steady(k.seen, i - 1) && m >= i;
      }
    }
  }

  lemma LiftInv(k: Track, speak: bool, was: int, now: int)
    requires Inv(k, was) && was <= now && Recovers(k.alert, now)
    ensures Inv(Track(k.alert.(suppressed := false, crashTimes := []), k.log + [Lifted(now, speak)], [], k.seen), now)
    ensures SteadyFor(k.seen, now, RECOVERY_DURATION)
  {
    var last := k.log[|k.log| - 1];
    assert last.at in k.crashes;
    AppendToLog(k.log, Lifted(now, speak));
    LastSingleOfAppended(k.log, Lifted(now, speak));
    assert !HasPair([]);
    TimerExactly(k, now);
    LiftKeepsStability(k);
    hide StabilityFits, SteadyFor, HasPair, Recent, LastSingle, Alternates;
  }

  lemma LiftKeepsStability(k: Track)
    requires StabilityFits(k)
    ensures forall log :: StabilityFits(Track(k.alert.(suppressed := false, crashTimes := []), log, [], k.seen))
  {
  }

  lemma LastSingleOfAppended(log: seq<Event>, e: Event)
    ensures LastSingle(log + [e]) == if e.Single? then Some(e.at) else LastSingle(log)
  {
    assert (log + [e])[..|log|] == log;
  }

  lemma AppendToLog(log: seq<Event>, e: Event)
    requires InOrder(log) && Alternates(log)
    requires forall i :: 0 <= i < |log| ==> log[i].at <= e.at
    requires if log == [] then !e.Lifted? else MayFollow(log[|log| - 1], e)
    ensures InOrder(log + [e]) && Alternates(log + [e])
  {
    var longer := log + [e];
    forall i | 0 < i < |longer| ensures MayFollow(longer[i - 1], longer[i]) {
      if i < |log| {
        assert longer[i - 1] == log[i - 1] && longer[i] == log[i];
        assert MayFollow(log[i - 1], log[i]);
      }
    }
  }

  /** No single alert was sent within the recovery time before a crash that starts no loop. */
  lemma QuietBefore(k: Track, now: int)
    requires LogFits(k) && !k.alert.suppressed && forall i :: 0 <= i < |k.log| ==> k.log[i].at <= now
    requires !HasPair(k.crashes + [now])
    ensures k.alert.lastAlert.Some? ==> k.alert.lastAlert.value + RECOVERY_DURATION <= now
    ensures k.log != [] && k.log[|k.log| - 1].Single? ==> k.log[|k.log| - 1].at + LOOP_WINDOW <= now
  {
    if k.log != [] && k.log[|k.log| - 1].Single? {
      var c :| 0 <= c < |k.crashes| && k.crashes[c] == k.log[|k.log| - 1].at;
      var crashes := k.crashes + [now];
      assert crashes[|k.crashes|] - crashes[c] >= LOOP_WINDOW;
    }
    if k.alert.lastAlert.Some? {
      var i := LastSingleIndex(k.log);
      if i < |k.log| - 1 {
        assert MayFollow(k.log[i], k.log[i + 1]);
        assert MayFollow(k.log[i + 1], k.log[i + 2]);
      }
    }
  }

  lemma RecordInv(h: Track, kind: Kind, t: Readings, was: int)
    requires Inv(h, was) && was <= t.crash <= t.cool && h.alert.stableFrom.None?
    ensures var (a, said) := Record(h.alert, kind, t);
      && Inv(Track(a, h.log + said, h.crashes + [t.crash], h.seen), t.crash)
      && said == SaidFor(h.crashes, kind, t.crash)
  {
    hide Alternates, InOrder, Recent, HasPair, Sorted, LastSingle, MayFollow;
    WindowStep(h, t.crash);
    var (a, said) := Record(h.alert, kind, t);
    var crashes := h.crashes + [t.crash];
    assert Last(crashes) == t.crash && t.crash in crashes;
    if h.alert.suppressed {
      assert h.log + said == h.log;
    } else {
      if !HasPair(crashes) {
        QuietBefore(h, t.crash);
      }
      AppendToLog(h.log, said[0]);
      LastSingleOfAppended(h.log, said[0]);
    }
  }

  /** What a crash recorded now calls for, in terms of the full history since suppression was
      last lifted: nothing while it has a pair already, the crash-loop alert when this crash
      makes the first one, a single alert otherwise. */
  ghost function SaidFor(crashes: seq<int>, kind: Kind, now: int): seq<Event> {
    if HasPair(crashes) then []
    else if HasPair(crashes + [now]) then [Loop(now, |Recent(crashes + [now], now)|)]
    else [Single(now, kind)]
  }

  // ---------------------------------------------------------------- main results

  /** One turn, at any readings of a clock that does not go back, keeps the invariant; and says
      exactly when each notification goes out, in terms of the full history. */
  lemma TurnInv(k: Track, r: Report, intentional: bool, speak: bool, t: Readings, was: int)
    requires Inv(k, was) && t.Valid(was, t.cool)
    ensures Inv(Advance(k, r, intentional, speak, t), t.cool)
    ensures var kind := Classify(k.alert, r, intentional);
      var h := Halfway(k, r, speak, t);
      Advance(k, r, intentional, speak, t).log ==
        h.log + if kind.None? || !speak then [] else SaidFor(h.crashes, kind.value, t.crash)
  {
    hide Inv, Advance, Halfway, Classify, Record, SaidFor;
    HalfwayInv(k, r, speak, t, was);
    var h := Halfway(k, r, speak, t);
    var kind := Classify(k.alert, r, intentional);
    AdvanceFromHalfway(k, r, intentional, speak, t);
    if kind.None? || !speak {
      InvLater(h, t.recover, t.cool);
      assert h.log + [] == h.log;
    } else {
      CrashIsUnstable(k, r, intentional, speak, t);
      RecordInv(h, kind.value, t, t.recover);
      InvLater(Advance(k, r, intentional, speak, t), t.crash, t.cool);
    }
  }

  lemma CrashIsUnstable(k: Track, r: Report, intentional: bool, speak: bool, t: Readings)
    requires Classify(k.alert, r, intentional).Some?
    ensures Halfway(k, r, speak, t).alert.stableFrom.None?
  {
  }

  lemma InvLater(k: Track, was: int, now: int)
    requires Inv(k, was) && was <= now
    ensures Inv(k, now)
  {
  }

  lemma AdvanceFromHalfway(k: Track, r: Report, intentional: bool, speak: bool, t: Readings)
    ensures var h, kind := Halfway(k, r, speak, t), Classify(k.alert, r, intentional);
      Advance(k, r, intentional, speak, t) ==
        if kind.None? || !speak then h
        else
          var (a, said) := Record(h.alert, kind.value, t);
          Track(a, h.log + said, h.crashes + [t.crash], h.seen)
  {
    var h := Halfway(k, r, speak, t);
    var turn := Observe(k.alert, r, intentional, speak, t);
    assert k.log + [] == k.log && h.crashes + [] == h.crashes;
    assert k.log + turn.events == h.log + turn.events[|h.log| - |k.log|..];
  }

  /** Suppression is lifted only after the container was steady for the whole recovery time. */
  lemma LiftedOnlyWhenSteady(k: Track, r: Report, intentional: bool, speak: bool, t: Readings, was: int)
    requires Inv(k, was) && t.Valid(was, t.cool)
    ensures var k' := Advance(k, r, intentional, speak, t);
      k.alert.suppressed && Observe(k.alert, r, intentional, speak, t).recovered ==>
        SteadyFor(k'.seen, t.recover, RECOVERY_DURATION)
  {
    HalfwayInv(k, r, speak, t, was);
  }

  /** What a report says beside the sighting before: the container restarted, or it stopped running
      after an OOM kill or with an exit code that is neither 0 nor intended. */
  predicate CrashSeen(last: Sighting, r: Report, intentional: bool) {
    || r.restarts > last.restarts
    || (last.state == "running" && r.state in {"exited", "dead"} && (r.oom || !(r.exitCode == 0 || intentional)))
  }

  /** The whole effect of a turn, read off the sightings, the report and the full history.
      Suppression ends exactly when every sighting over the recovery time was steady. A crash is
      recorded exactly if one is seen and the host may be spoken of. Then nothing is said during a
      suppression, a crash loop is reported for the second crash within the loop window, and
      otherwise the crash itself, by its kind. */
  ghost predicate TurnEffect(k: Track, k': Track, r: Report, intentional: bool, speak: bool, t: Readings)
    requires k.seen != []
  {
    var last, seen := k.seen[|k.seen| - 1], k.seen + [Sighting(t.stable, r.state, r.restarts)];
    var lifted := k.alert.suppressed && SteadyFor(seen, t.recover, RECOVERY_DURATION);
    var crashes := if lifted then [] else k.crashes;
    var crash := speak && CrashSeen(last, r, intentional);
    && k'.seen == seen
    && k'.crashes == crashes + (if crash then [t.crash] else [])
    && k'.log == k.log + (if lifted then [Lifted(t.recover, speak)] else [])
                       + (if crash then CrashReport(crashes, last, r, t.crash) else [])
  }

  ghost function CrashReport(crashes: seq<int>, last: Sighting, r: Report, now: int): seq<Event> {
    if HasPair(crashes) then []
    else if HasPair(crashes + [now]) then [Loop(now, |Recent(crashes + [now], now)|)]
    else if r.restarts > last.restarts then [Single(now, if r.oom then OomRestarted else Restarted)]
    else [Single(now, if r.oom then OomStopped else Crashed)]
  }

  lemma SomethingSeen(k: Track, now: int)
    requires Inv(k, now)
    ensures k.seen != []
  {
  }

  lemma TurnExactly(k: Track, r: Report, intentional: bool, speak: bool, t: Readings, was: int)
    requires Inv(k, was) && t.Valid(was, t.cool)
    ensures k.seen != [] && TurnEffect(k, Advance(k, r, intentional, speak, t), r, intentional, speak, t)
  {
    SomethingSeen(k, was);
    assert StabilityFits(k);
    hide Inv, HasPair, Recent, Classify, CrashSeen, CrashReport, Record, StabilityFits, Halfway, Advance, SaidFor, TurnEffect;
    hide SteadyFor;
    var h, k', kind := Halfway(k, r, speak, t), Advance(k, r, intentional, speak, t), Classify(k.alert, r, intentional);
    var last := k.seen[|k.seen| - 1];
    HalfwayExactly(k, r, speak, t, was);
    ClassifyExactly(k, r, intentional);
    SaidExactly(h.crashes, kind, last, r, intentional, t.crash);
    TurnInv(k, r, intentional, speak, t, was);
    CrashesAfter(k, r, intentional, speak, t);
    BothHalves(k, h, k', r, intentional, speak, t);
  }

  lemma BothHalves(k: Track, h: Track, k': Track, r: Report, intentional: bool, speak: bool, t: Readings)
    requires k.seen != []
    requires var seen := k.seen + [Sighting(t.stable, r.state, r.restarts)];
      var lifted := k.alert.suppressed && SteadyFor(seen, t.recover, RECOVERY_DURATION);
      && h.seen == seen && h.crashes == (if lifted then [] else k.crashes)
      && h.log == k.log + if lifted then [Lifted(t.recover, speak)] else []
    requires var last := k.seen[|k.seen| - 1];
      var crash := speak && CrashSeen(last, r, intentional);
      && k'.seen == h.seen && k'.crashes == h.crashes + (if crash then [t.crash] else [])
      && k'.log == h.log + if crash then CrashReport(h.crashes, last, r, t.crash) else []
    ensures TurnEffect(k, k', r, intentional, speak, t)
  {
    hide SteadyFor, CrashSeen, CrashReport;
  }

  lemma CrashesAfter(k: Track, r: Report, intentional: bool, speak: bool, t: Readings)
    ensures var h, k' := Halfway(k, r, speak, t), Advance(k, r, intentional, speak, t);
      && k'.seen == h.seen
      && k'.crashes == h.crashes + if speak && Classify(k.alert, r, intentional).Some? then [t.crash] else []
  {
    AdvanceFromHalfway(k, r, intentional, speak, t);
    var h := Halfway(k, r, speak, t);
    hide Halfway, Advance, Classify, Record;
    assert h.crashes + [] == h.crashes;
  }

  /** What is to be said of a crash, by what its report shows. */
  lemma SaidExactly(crashes: seq<int>, kind: Option<Kind>, last: Sighting, r: Report, intentional: bool, now: int)
    requires kind.Some? <==> CrashSeen(last, r, intentional)
    requires kind.Some? && r.restarts > last.restarts ==> kind.value == if r.oom then OomRestarted else Restarted
    requires kind.Some? && r.restarts <= last.restarts ==> kind.value == if r.oom then OomStopped else Crashed
    ensures kind.Some? ==> SaidFor(crashes, kind.value, now) == CrashReport(crashes, last, r, now)
  {
    hide CrashSeen, HasPair, Recent;
  }

  lemma HalfwayExactly(k: Track, r: Report, speak: bool, t: Readings, was: int)
    requires Inv(k, was) && was <= t.stable <= t.recover
    ensures var h, seen := Halfway(k, r, speak, t), k.seen + [Sighting(t.stable, r.state, r.restarts)];
      var lifted := k.alert.suppressed && SteadyFor(seen, t.recover, RECOVERY_DURATION);
      && h.seen == seen && h.crashes == (if lifted then [] else k.crashes)
      && h.log == k.log + if lifted then [Lifted(t.recover, speak)] else []
  {
    StabilityStep(k, r, t, was);
    var k1 := Track(Stabilised(k.alert, r, t.stable), k.log, k.crashes, k.seen + [Sighting(t.stable, r.state, r.restarts)]);
    TimerExactly(k1, t.recover);
    hide Inv, SteadyFor, StabilityFits;
    assert k.log + [] == k.log;
  }

  lemma ClassifyExactly(k: Track, r: Report, intentional: bool)
    requires StabilityFits(k)
    ensures var kind, last := Classify(k.alert, r, intentional), k.seen[|k.seen| - 1];
      && (kind.Some? <==> CrashSeen(last, r, intentional))
      && (kind.Some? && r.restarts > last.restarts ==> kind.value == if r.oom then OomRestarted else Restarted)
      && (kind.Some? && r.restarts <= last.restarts ==> kind.value == if r.oom then OomStopped else Crashed)
  {
  }

  predicate InSpan(e: Event, from: int, to: int) {
    from <= e.at <= to
  }

  function CountLike(log: seq<Event>, like: Event, from: int, to: int): nat {
    if log == [] then 0
    else
      var e := log[|log| - 1];
      CountLike(log[..|log| - 1], like, from, to) + if SameKind(e, like) && InSpan(e, from, to) then 1 else 0
  }

  function CountAll(log: seq<Event>, from: int, to: int): nat {
    if log == [] then 0
    else CountAll(log[..|log| - 1], from, to) + if InSpan(log[|log| - 1], from, to) then 1 else 0
  }

  lemma {:induction false} CountShrinks(log: seq<Event>, like: Event, from: int, to: int, cut: int)
    requires cut <= to
    requires forall i :: 0 <= i < |log| && SameKind(log[i], like) ==> log[i].at <= cut
    ensures CountLike(log, like, from, to) == CountLike(log, like, from, cut)
    decreases |log|
  {
    if log != [] {
      CountShrinks(log[..|log| - 1], like, from, to, cut);
    }
  }

  lemma {:induction false} CountBound(log: seq<Event>, like: Event, from: int, to: int)
    requires InOrder(log) && Alternates(log)
    ensures CountLike(log, like, from, to) <= if from <= to then (to - from) / RECOVERY_DURATION + 1 else 0
    decreases |log|
  {
    if log != [] {
      var e, rest := log[|log| - 1], log[..|log| - 1];
      if SameKind(e, like) && InSpan(e, from, to) {
        forall i | 0 <= i < |rest| && SameKind(rest[i], like) ensures rest[i].at <= e.at - RECOVERY_DURATION {
          KindsSpaced(log, i, |log| - 1);
        }
        Shorter(log);
        CountShrinks(rest, like, from, to, e.at - RECOVERY_DURATION);
        CountBound(rest, like, from, e.at - RECOVERY_DURATION);
        DivStep(e.at - RECOVERY_DURATION - from, to - from);
      } else {
        Shorter(log);
        CountBound(rest, like, from, to);
      }
    }
  }

  lemma DivStep(a: int, b: int)
    requires 0 <= a + RECOVERY_DURATION <= b
    ensures 0 <= a ==> a / RECOVERY_DURATION + 1 <= b / RECOVERY_DURATION
    ensures b / RECOVERY_DURATION >= 0
  {
    assert (a + RECOVERY_DURATION) / RECOVERY_DURATION == a / RECOVERY_DURATION + 1;
  }

  lemma {:induction false} CountSplits(log: seq<Event>, from: int, to: int)
    ensures CountAll(log, from, to)
         == CountLike(log, Single(0, Crashed), from, to) + CountLike(log, Loop(0, 0), from, to) + CountLike(log, Lifted(0, true), from, to)
    decreases |log|
  {
    if log != [] {
      CountSplits(log[..|log| - 1], from, to);
    }
  }

  /** In any span of length T at most 3 * (T / 10 min + 1) notifications go out for a container. */
  lemma AlertsBounded(k: Track, now: int, from: int, span: nat)
    requires Inv(k, now)
    ensures CountAll(k.log, from, from + span) <= 3 * (span / RECOVERY_DURATION + 1)
  {
    CountSplits(k.log, from, from + span);
    CountBound(k.log, Single(0, Crashed), from, from + span);
    CountBound(k.log, Loop(0, 0), from, from + span);
    CountBound(k.log, Lifted(0, true), from, from + span);
  }
}
