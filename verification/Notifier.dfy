/** The notifier over all containers (internal/dashboard/notifier.go): Check, ExpectStop and
    whole runs of both. */
module Notifier {
  import opened Base
  import opened Alerts

  const EXPECTED_STOP_WINDOW := 2 * MINUTE

  datatype Key = Key(addr: string, name: string)

  type Tracks = map<Key, Track>

  predicate IntentionalExit(expected: map<Key, int>, key: Key, exitCode: int, now: int) {
    match exitCode
    case 143 => true
    case 137 => key in expected && now < expected[key]
    case _ => false
  }

  function Expecting(expected: map<Key, int>, key: Key, now: int): map<Key, int> {
    (map k | k in expected && now <= expected[k] :: expected[k])[key := now + EXPECTED_STOP_WINDOW]
  }

  function CheckOne(tracks: Tracks, expected: map<Key, int>, addr: string, r: Report, speak: bool, t: Readings): Tracks {
    var key := Key(addr, r.name);
    if key !in tracks then tracks[key := FirstSight(r, t.stable)]
    else tracks[key := Advance(tracks[key], r, IntentionalExit(expected, key, r.exitCode, t.exit), speak, t)]
  }

  function CheckFrom(tracks: Tracks, expected: map<Key, int>, addr: string, reports: seq<Report>,
                     speak: bool, times: seq<Readings>, i: nat): Tracks
    requires |times| == |reports| && i <= |reports|
    decreases |reports| - i
  {
    if i == |reports| then tracks
    else CheckFrom(CheckOne(tracks, expected, addr, reports[i], speak, times[i]), expected, addr, reports, speak, times, i + 1)
  }

  // ---------------------------------------------------------------- the object

  datatype Delivery = Delivery(key: Key, event: Event)

  function DeliveredTo(outbox: seq<Delivery>, key: Key): seq<Event> {
    if outbox == [] then []
    else DeliveredTo(outbox[..|outbox| - 1], key) +
         if outbox[|outbox| - 1].key == key then [outbox[|outbox| - 1].event] else []
  }

  predicate IsSent(e: Event) {
    e.Lifted? ==> e.sent
  }

  function SentPart(log: seq<Event>): seq<Event> {
    if log == [] then []
    else SentPart(log[..|log| - 1]) + if IsSent(log[|log| - 1]) then [log[|log| - 1]] else []
  }

  lemma DeliverOne(outbox: seq<Delivery>, d: Delivery, key: Key)
    ensures DeliveredTo(outbox + [d], key) == DeliveredTo(outbox, key) + if d.key == key then [d.event] else []
  {
    assert (outbox + [d])[..|outbox|] == outbox;
  }

  lemma SendOne(log: seq<Event>, e: Event)
    ensures SentPart(log + [e]) == SentPart(log) + if IsSent(e) then [e] else []
  {
    assert (log + [e])[..|log|] == log;
  }

  lemma DeliverAll(outbox: seq<Delivery>, d: Delivery)
    ensures forall k :: DeliveredTo(outbox + [d], k) == DeliveredTo(outbox, k) + if k == d.key then [d.event] else []
  {
    forall k ensures DeliveredTo(outbox + [d], k) == DeliveredTo(outbox, k) + if k == d.key then [d.event] else [] {
      DeliverOne(outbox, d, k);
    }
  }

  lemma {:induction false} SendAll(log: seq<Event>, events: seq<Event>)
    ensures SentPart(log + events) == SentPart(log) + SentPart(events)
    decreases |events|
  {
    if events == [] {
      assert log + events == log;
    } else {
      var n := |events| - 1;
      assert log + events == log + events[..n] + [events[n]];
      SendAll(log, events[..n]);
      SendOne(log + events[..n], events[n]);
    }
  }

  lemma AdvanceParts(k: Track, r: Report, intentional: bool, speak: bool, t: Readings)
    ensures var turn, k' := Observe(k.alert, r, intentional, speak, t), Advance(k, r, intentional, speak, t);
      k'.alert == turn.alert && k'.log == k.log + turn.events
  {
  }

  /** The records are the tracks' records, and what was delivered for each container is the sent
      part of its history. */
  ghost predicate Fits(state: map<Key, Alert>, outbox: seq<Delivery>, tracks: Tracks) {
    && state.Keys == tracks.Keys
    && (forall k :: k in state ==> state[k] == tracks[k].alert)
    && (forall k :: Fed(outbox, tracks, k))
  }

  /** What was delivered for k is the sent part of its history. */
  predicate Fed(outbox: seq<Delivery>, tracks: Tracks, k: Key) {
    DeliveredTo(outbox, k) == if k in tracks then SentPart(tracks[k].log) else []
  }

  ghost predicate Grew(outbox: seq<Delivery>, outbox': seq<Delivery>, key: Key, events: seq<Event>) {
    forall k :: DeliveredTo(outbox', k) == DeliveredTo(outbox, k) + if k == key then SentPart(events) else []
  }

  lemma FitsAfterTurn(state: map<Key, Alert>, outbox: seq<Delivery>, outbox': seq<Delivery>, tracks: Tracks,
                      key: Key, k': Track, events: seq<Event>)
    requires Fits(state, outbox, tracks) && key in tracks
    requires k'.log == tracks[key].log + events && Grew(outbox, outbox', key, events)
    ensures Fits(state[key := k'.alert], outbox', tracks[key := k'])
  {
    hide Fed;
    var tracks' := tracks[key := k'];
    forall k ensures Fed(outbox', tracks', k) {
      FedAfter(outbox, outbox', tracks, key, k', events, k);
    }
  }

  lemma FedAfter(outbox: seq<Delivery>, outbox': seq<Delivery>, tracks: Tracks, key: Key, k': Track, events: seq<Event>, k: Key)
    requires Fed(outbox, tracks, k) && key in tracks
    requires k'.log == tracks[key].log + events && Grew(outbox, outbox', key, events)
    ensures Fed(outbox', tracks[key := k'], k)
  {
    SendAll(tracks[key].log, events);
    assert DeliveredTo(outbox', k) == DeliveredTo(outbox, k) + if k == key then SentPart(events) else [];
    hide DeliveredTo, SentPart, Grew;
  }

  lemma FitsFirstSight(state: map<Key, Alert>, outbox: seq<Delivery>, tracks: Tracks, key: Key, r: Report, at: int)
    requires Fits(state, outbox, tracks) && key !in tracks
    ensures var k := FirstSight(r, at);
      k.alert == Alert(false, r.state, r.restarts, [], None, None) &&
      Fits(state[key := k.alert], outbox, tracks[key := k])
  {
    assert SentPart([]) == [] && Fed(outbox, tracks, key);
    hide SentPart, DeliveredTo;
    var tracks' := tracks[key := FirstSight(r, at)];
    forall k ensures Fed(outbox, tracks', k) {
      assert Fed(outbox, tracks, k);
    }
  }

  /** Keeps the times still in the loop window, in place: what is read is never behind what is
      written. */
  method PruneInPlace(times: array<int>, now: int) returns (kept: nat)
    modifies times
    ensures kept <= times.Length && times[..kept] == Recent(old(times[..]), now)
  {
    ghost var all := times[..];
    kept := 0;
    for i := 0 to times.Length
      invariant kept <= i
      invariant forall j :: i <= j < times.Length ==> times[j] == all[j]
      invariant times[..kept] == Recent(all[..i], now)
    {
      var t := times[i];
      assert all[..i + 1] == all[..i] + [t];
      RecentSplit(all[..i], [t], now);
      assert Recent([t], now) == (if now - t < LOOP_WINDOW then [t] else []) + Recent([], now);
      if now - t < LOOP_WINDOW {
        times[kept] := t;
        kept := kept + 1;
      }
    }
    assert all[..times.Length] == all;
  }

  class CrashNotifier {
    var state: map<Key, Alert>
    var expected: map<Key, int>
    var outbox: seq<Delivery>
    // Everything that ever happened to each container.
    ghost var tracks: Tracks

    ghost predicate Valid()
      reads this
    {
      Fits(state, outbox, tracks)
    }

    constructor ()
      ensures Valid() && tracks == map[] && expected == map[] && outbox == []
    {
      state, expected, outbox, tracks := map[], map[], [], map[];
    }

    method ExpectStop(key: Key, now: int)
      requires Valid()
      modifies this`expected
      ensures Valid() && expected == Expecting(old(expected), key, now)
    {
      var todo := expected.Keys;
      while todo != {}
        invariant todo <= expected.Keys <= old(expected).Keys
        invariant forall k :: k in expected ==> expected[k] == old(expected)[k]
        invariant forall k :: k in old(expected) ==> (k in expected <==> k in todo || now <= old(expected)[k])
        decreases todo
      {
        var k :| k in todo;
        todo := todo - {k};
        if now > expected[k] {
          expected := expected - {k};
        }
      }
      expected := expected[key := now + EXPECTED_STOP_WINDOW];
    }

    /** Sends what a turn calls for. */
    method Deliver(key: Key, events: seq<Event>)
      modifies this`outbox
      ensures Grew(old(outbox), outbox, key, events)
    {
      assert SentPart(events[..0]) == [];
      hide SentPart, DeliveredTo;
      for i := 0 to |events|
        invariant forall k :: DeliveredTo(outbox, k) == DeliveredTo(old(outbox), k) + if k == key then SentPart(events[..i]) else []
      {
        assert events[..i + 1] == events[..i] + [events[i]];
        SendOne(events[..i], events[i]);
        if IsSent(events[i]) {
          DeliverAll(outbox, Delivery(key, events[i]));
          outbox := outbox + [Delivery(key, events[i])];
        }
      }
      assert events[..|events|] == events;
    }

    /** The new record of a container seen before, and what to send. */
    method Decide(key: Key, prev: Alert, r: Report, speak: bool, t: Readings) returns (a: Alert, events: seq<Event>)
      ensures var turn := Observe(prev, r, IntentionalExit(expected, key, r.exitCode, t.exit), speak, t);
        a == turn.alert && events == turn.events
    {
      var prevState, prevRestarts := prev.prevState, prev.prevRestarts;
      a := prev.(prevState := r.state, prevRestarts := r.restarts);
      events := [];

      if r.state == "running" && r.restarts == prevRestarts {
        if a.stableFrom.None? {
          a := a.(stableFrom := Some(t.stable));
        }
      } else {
        a := a.(stableFrom := None);
      }

      if a.suppressed && a.stableFrom.Some? && t.recover - a.stableFrom.value >= RECOVERY_DURATION {
        a := a.(suppressed := false, crashTimes := []);
        events := [Lifted(t.recover, speak)];
      }

      var kind: Option<Kind> := None;
      if r.restarts > prevRestarts {
        kind := Some(if r.oom then OomRestarted else Restarted);
      } else if prevState == "running" && (r.state == "exited" || r.state == "dead") {
        if r.oom {
          kind := Some(OomStopped);
        } else if r.exitCode != 0 && !IntentionalExit(expected, key, r.exitCode, t.exit) {
          kind := Some(Crashed);
        }
      }
      assert kind == Classify(prev, r, IntentionalExit(expected, key, r.exitCode, t.exit));
      if kind.None? || !speak {
        return;
      }

      ghost var before := a;
      var times := new int[|a.crashTimes|](i requires 0 <= i < |a.crashTimes| => a.crashTimes[i]);
      assert times[..] == a.crashTimes;
      var kept := PruneInPlace(times, t.crash);
      a := a.(crashTimes := times[..kept] + [t.crash]);
      var said: seq<Event> := [];
      if a.suppressed {
      } else if |a.crashTimes| >= LOOP_THRESHOLD {
        a := a.(suppressed := true);
        said := [Loop(t.crash, |a.crashTimes|)];
      } else if a.lastAlert.Some? && t.cool - a.lastAlert.value < ALERT_COOLDOWN {
      } else {
        a := a.(lastAlert := Some(t.crash));
        said := [Single(t.crash, kind.value)];
      }
      assert (a, said) == Record(before, kind.value, t);
      events := events + said;
    }

    /** Stores a container's new record and sends what its turn called for. */
    method Store(key: Key, a: Alert, events: seq<Event>, ghost next: Track)
      requires Valid() && key in tracks
      requires next.alert == a && next.log == tracks[key].log + events
      modifies this`state, this`outbox, this`tracks
      ensures Valid() && tracks == old(tracks)[key := next]
    {
      hide Fits, Grew;
      Deliver(key, events);
      FitsAfterTurn(state, old(outbox), outbox, tracks, key, next, events);
      state := state[key := a];
      tracks := tracks[key := next];
    }

    /** One turn of the loop. */
    method Turn(addr: string, r: Report, speak: bool, t: Readings)
      requires Valid()
      modifies this`state, this`outbox, this`tracks
      ensures Valid()
      ensures tracks == CheckOne(old(tracks), expected, addr, r, speak, t)
    {
      var key := Key(addr, r.name);
      if key in state {
        ghost var intentional := IntentionalExit(expected, key, r.exitCode, t.exit);
        ghost var next := Advance(tracks[key], r, intentional, speak, t);
        AdvanceParts(tracks[key], r, intentional, speak, t);
        var a, events := Decide(key, state[key], r, speak, t);
        Store(key, a, events, next);
      } else {
        FitsFirstSight(state, outbox, tracks, key, r, t.stable);
        state := state[key := Alert(false, r.state, r.restarts, [], None, None)];
        tracks := tracks[key := FirstSight(r, t.stable)];
      }
    }

    method Check(addr: string, reports: seq<Report>, url: string, disabled: bool, mutedHosts: set<string>, times: seq<Readings>)
      requires Valid() && |times| == |reports|
      modifies this`state, this`outbox, this`tracks
      ensures Valid()
      ensures tracks == CheckFrom(old(tracks), expected, addr, reports, url != "" && !(disabled || addr in mutedHosts), times, 0)
    {
      var speak := url != "" && !(disabled || addr in mutedHosts);
      for i := 0 to |reports|
        invariant Valid()
        invariant CheckFrom(old(tracks), expected, addr, reports, speak, times, 0)
               == CheckFrom(tracks, expected, addr, reports, speak, times, i)
      {
        Turn(addr, reports[i], speak, times[i]);
      }
    }
  }

  // ---------------------------------------------------------------- whole runs

  datatype Call =
    | CheckCall(addr: string, reports: seq<Report>, speak: bool, times: seq<Readings>)
    | ExpectCall(key: Key, at: int)

  datatype World = World(tracks: Tracks, expected: map<Key, int>)

  /** The last reading before turn i. */
  function Before(times: seq<Readings>, from: int, i: nat): int
    requires i <= |times|
  {
    if i == 0 then from else times[i - 1].cool
  }

  /** Readings in order, none before from. */
  predicate Timed(times: seq<Readings>, from: int) {
    forall i :: 0 <= i < |times| ==> times[i].Valid(Before(times, from, i), times[i].cool)
  }

  function EndOf(call: Call, from: int): int {
    match call
    case CheckCall(_, _, _, times) => Before(times, from, |times|)
    case ExpectCall(_, at) => at
  }

  predicate ValidCall(call: Call, from: int) {
    match call
    case CheckCall(_, reports, _, times) => |times| == |reports| && Timed(times, from)
    case ExpectCall(_, at) => from <= at
  }

  function Apply(w: World, call: Call): World
    requires call.CheckCall? ==> |call.times| == |call.reports|
  {
    match call
    case CheckCall(addr, reports, speak, times) =>
      w.(tracks := CheckFrom(w.tracks, w.expected, addr, reports, speak, times, 0))
    case ExpectCall(key, at) => w.(expected := Expecting(w.expected, key, at))
  }

  predicate ValidCalls(calls: seq<Call>, from: int)
    decreases |calls|
  {
    calls == [] || (ValidCall(calls[0], from) && ValidCalls(calls[1..], EndOf(calls[0], from)))
  }

  function ApplyAll(w: World, calls: seq<Call>, from: int): World
    requires ValidCalls(calls, from)
    decreases |calls|
  {
    if calls == [] then w else ApplyAll(Apply(w, calls[0]), calls[1..], EndOf(calls[0], from))
  }

  function EndOfAll(calls: seq<Call>, from: int): int
    decreases |calls|
  {
    if calls == [] then from else EndOfAll(calls[1..], EndOf(calls[0], from))
  }

  ghost predicate AllInv(tracks: Tracks, now: int) {
    forall k :: k in tracks ==> Inv(tracks[k], now)
  }

  lemma CheckOneInv(tracks: Tracks, expected: map<Key, int>, addr: string, r: Report, speak: bool, t: Readings, was: int)
    requires AllInv(tracks, was) && t.Valid(was, t.cool)
    ensures AllInv(CheckOne(tracks, expected, addr, r, speak, t), t.cool)
  {
    hide Inv;
    var key := Key(addr, r.name);
    forall k | k in tracks ensures Inv(tracks[k], t.cool) {
      InvLater(tracks[k], was, t.cool);
    }
    if key in tracks {
      TurnInv(tracks[key], r, IntentionalExit(expected, key, r.exitCode, t.exit), speak, t, was);
    } else {
      FirstSightInv(r, t.stable);
      InvLater(FirstSight(r, t.stable), t.stable, t.cool);
    }
  }

  lemma {:induction false} CheckFromInv(tracks: Tracks, expected: map<Key, int>, addr: string, reports: seq<Report>,
                                        speak: bool, times: seq<Readings>, i: nat, from: int)
    requires |times| == |reports| && i <= |reports| && Timed(times, from)
    requires AllInv(tracks, Before(times, from, i))
    ensures AllInv(CheckFrom(tracks, expected, addr, reports, speak, times, i), Before(times, from, |times|))
    decreases |reports| - i
  {
    hide Inv;
    if i < |reports| {
      CheckOneInv(tracks, expected, addr, reports[i], speak, times[i], Before(times, from, i));
      CheckFromInv(CheckOne(tracks, expected, addr, reports[i], speak, times[i]), expected, addr, reports, speak, times, i + 1, from);
    }
  }

  lemma {:induction false} RunInv(w: World, calls: seq<Call>, from: int)
    requires AllInv(w.tracks, from) && ValidCalls(calls, from)
    ensures AllInv(ApplyAll(w, calls, from).tracks, EndOfAll(calls, from))
    decreases |calls|
  {
    hide Inv;
    if calls != [] {
      match calls[0]
      case CheckCall(addr, reports, speak, times) =>
        CheckFromInv(w.tracks, w.expected, addr, reports, speak, times, 0, from);
        RunInv(Apply(w, calls[0]), calls[1..], EndOf(calls[0], from));
      case ExpectCall(key, at) =>
        forall k | k in w.tracks ensures Inv(w.tracks[k], at) {
          InvLater(w.tracks[k], from, at);
        }
        RunInv(Apply(w, calls[0]), calls[1..], at);
    }
  }

  /** Over any run of a new notifier, for every container: single alerts at least ten minutes
      apart, and a loop window apart without a suppression between; crash loops and their ends
      alternate and are ten minutes apart; nothing else is said while suppressed; and at most
      3 * (T / 10 min + 1) notifications go out in any span T. */
  lemma EveryRunIsQuiet(calls: seq<Call>, from: int, key: Key, start: int, span: nat)
    requires ValidCalls(calls, from)
    requires key in ApplyAll(World(map[], map[]), calls, from).tracks
    ensures var log := ApplyAll(World(map[], map[]), calls, from).tracks[key].log;
      && InOrder(log) && Alternates(log)
      && (forall i, j :: 0 <= i < j < |log| && SameKind(log[i], log[j]) ==> log[i].at + RECOVERY_DURATION <= log[j].at)
      && (forall i, j :: 0 <= i < j < |log| && log[i].Single? && log[j].Single? && (forall k :: i < k < j ==> !log[k].Loop?) ==>
            log[i].at + LOOP_WINDOW <= log[j].at)
      && CountAll(log, start, start + span) <= 3 * (span / RECOVERY_DURATION + 1)
  {
    hide HasPair, Recent, StabilityFits, WindowRefines, Past;
    RunInv(World(map[], map[]), calls, from);
    var tracks := ApplyAll(World(map[], map[]), calls, from).tracks;
    var now := EndOfAll(calls, from);
    var log := tracks[key].log;
    AlertsBounded(tracks[key], now, start, span);
    forall i, j | 0 <= i < j < |log| && SameKind(log[i], log[j])
      ensures log[i].at + RECOVERY_DURATION <= log[j].at
      ensures log[i].Single? && (forall k :: i < k < j ==> !log[k].Loop?) ==> log[i].at + LOOP_WINDOW <= log[j].at
    {
      KindsSpaced(log, i, j);
    }
  }

  /** Over any run, the state at each moment is what the full history calls for: suppressed
      exactly while the crashes recorded since suppression was last lifted contain two within
      the loop window. */
  lemma SuppressedExactlyWithPair(calls: seq<Call>, from: int, key: Key)
    requires ValidCalls(calls, from)
    requires key in ApplyAll(World(map[], map[]), calls, from).tracks
    ensures var k := ApplyAll(World(map[], map[]), calls, from).tracks[key];
      k.alert.suppressed <==> HasPair(k.crashes)
  {
    RunInv(World(map[], map[]), calls, from);
  }

  // ---------------------------------------------------------------- which stops are intended

  lemma {:induction false} TimesAscend(times: seq<Readings>, from: int, i: nat)
    requires i <= |times| && Timed(times, from)
    ensures from <= Before(times, from, i)
    decreases i
  {
    if i > 0 {
      TimesAscend(times, from, i - 1);
      assert times[i - 1].Valid(Before(times, from, i - 1), times[i - 1].cool);
    }
  }

  lemma {:induction false} CallsAscend(calls: seq<Call>, from: int)
    requires ValidCalls(calls, from)
    ensures from <= EndOfAll(calls, from)
    decreases |calls|
  {
    if calls != [] {
      if calls[0].CheckCall? {
        TimesAscend(calls[0].times, from, |calls[0].times|);
      }
      CallsAscend(calls[1..], EndOf(calls[0], from));
    }
  }

  /** Some call announced, less than two minutes before now, that the dashboard stops key. */
  ghost predicate Announced(calls: seq<Call>, key: Key, now: int) {
    exists i :: 0 <= i < |calls| && calls[i].ExpectCall? && calls[i].key == key && now < calls[i].at + 120 * SECOND
  }

  predicate Expected(expected: map<Key, int>, key: Key, now: int) {
    key in expected && now < expected[key]
  }

  lemma ExpectingExactly(expected: map<Key, int>, k: Key, at: int, key: Key, now: int)
    requires at <= now && forall m :: m in expected ==> expected[m] <= at + EXPECTED_STOP_WINDOW
    ensures Expected(Expecting(expected, k, at), key, now) <==>
      Expected(expected, key, now) || (k == key && now < at + 120 * SECOND)
  {
  }

  lemma {:induction false} ExpectedExactly(w: World, calls: seq<Call>, from: int, key: Key, now: int)
    requires ValidCalls(calls, from) && EndOfAll(calls, from) <= now
    requires forall m :: m in w.expected ==> w.expected[m] <= from + EXPECTED_STOP_WINDOW
    ensures Expected(ApplyAll(w, calls, from).expected, key, now) <==> Expected(w.expected, key, now) || Announced(calls, key, now)
    decreases |calls|
  {
    if calls != [] {
      var c, rest, to := calls[0], calls[1..], EndOf(calls[0], from);
      CallsAscend(rest, to);
      if c.CheckCall? {
        TimesAscend(c.times, from, |c.times|);
      } else {
        ExpectingExactly(w.expected, c.key, c.at, key, now);
      }
      ExpectedExactly(Apply(w, c), rest, to, key, now);
      assert Announced(calls, key, now) <==>
        (c.ExpectCall? && c.key == key && now < c.at + 120 * SECOND) || Announced(rest, key, now) by {
        if Announced(rest, key, now) {
          var i :| 0 <= i < |rest| && rest[i].ExpectCall? && rest[i].key == key && now < rest[i].at + 120 * SECOND;
          assert calls[i + 1] == rest[i];
        }
      }
    }
  }

  /** Over any run: a stop is intended if it ended in SIGTERM, code 143, whoever sent it; after
      SIGKILL, code 137, only within two minutes of the dashboard announcing it for that container;
      with no other code. */
  lemma IntendedExactly(calls: seq<Call>, from: int, key: Key, exitCode: int, now: int)
    requires ValidCalls(calls, from) && EndOfAll(calls, from) <= now
    ensures IntentionalExit(ApplyAll(World(map[], map[]), calls, from).expected, key, exitCode, now) <==>
      exitCode == 143 || (exitCode == 137 && Announced(calls, key, now))
  {
    ExpectedExactly(World(map[], map[]), calls, from, key, now);
  }

  lemma CheckOneEffect(tracks: Tracks, expected: map<Key, int>, addr: string, r: Report, speak: bool, t: Readings)
    ensures var key, after := Key(addr, r.name), CheckOne(tracks, expected, addr, r, speak, t);
      && after.Keys == tracks.Keys + {key}
      && (forall other :: other in tracks && other != key ==> after[other] == tracks[other])
      && (key !in tracks ==> after[key].log == [] && after[key].crashes == [])
      && (key in tracks ==>
            after[key] == Advance(tracks[key], r, IntentionalExit(expected, key, r.exitCode, t.exit), speak, t))
  {
    hide Advance, IntentionalExit;
  }

  /** After any run, the next report of a container: nothing the first time, and from then on what
      the reports so far and the announced stops call for. */
  lemma NextReportExactly(calls: seq<Call>, from: int, addr: string, r: Report, speak: bool, t: Readings)
    requires ValidCalls(calls, from) && t.Valid(EndOfAll(calls, from), t.cool)
    ensures var w, key := ApplyAll(World(map[], map[]), calls, from), Key(addr, r.name);
      var tracks := CheckOne(w.tracks, w.expected, addr, r, speak, t);
      && tracks.Keys == w.tracks.Keys + {key}
      && (forall other :: other in w.tracks && other != key ==> tracks[other] == w.tracks[other])
      && (key !in w.tracks ==> tracks[key].log == [] && tracks[key].crashes == [])
      && (key in w.tracks ==>
            && w.tracks[key].seen != []
            && TurnEffect(w.tracks[key], tracks[key], r,
                          r.exitCode == 143 || (r.exitCode == 137 && Announced(calls, key, t.exit)), speak, t))
  {
    var w, key := ApplyAll(World(map[], map[]), calls, from), Key(addr, r.name);
    CheckOneEffect(w.tracks, w.expected, addr, r, speak, t);
    hide Inv, ApplyAll, EndOfAll, ValidCalls, Announced, IntentionalExit, TurnEffect, Advance, CheckOne;
    RunInv(World(map[], map[]), calls, from);
    IntendedExactly(calls, from, key, r.exitCode, t.exit);
    if key in w.tracks {
      SomethingSeen(w.tracks[key], EndOfAll(calls, from));
      TurnExactly(w.tracks[key], r, IntentionalExit(w.expected, key, r.exitCode, t.exit), speak, t, EndOfAll(calls, from));
    }
  }

  // ---------------------------------------------------------------- what is sent

  /** While notifications are off or the host is muted nothing is sent, not even a recovery;
      otherwise all that happened is. */
  lemma SentExactly(k: Track, k': Track, r: Report, intentional: bool, speak: bool, t: Readings)
    requires k.seen != [] && TurnEffect(k, k', r, intentional, speak, t)
    ensures k.log <= k'.log
    ensures SentPart(k'.log) == SentPart(k.log) + if speak then k'.log[|k.log|..] else []
  {
    var seen := k.seen + [Sighting(t.stable, r.state, r.restarts)];
    var lifted := k.alert.suppressed && SteadyFor(seen, t.recover, RECOVERY_DURATION);
    var last, crashes := k.seen[|k.seen| - 1], if lifted then [] else k.crashes;
    var ended := if lifted then [Lifted(t.recover, speak)] else [];
    var said := if speak && CrashSeen(last, r, intentional) then CrashReport(crashes, last, r, t.crash) else [];
    assert k'.log == k.log + ended + said;
    ReportIsSent(crashes, last, r, t.crash);
    hide TurnEffect, SteadyFor, CrashSeen, CrashReport, SentPart;
    assert k.log + ended + said == k.log + (ended + said);
    assert k'.log[|k.log|..] == ended + said;
    SendAll(k.log, ended + said);
    AllOrNothing(ended + said, speak);
  }

  lemma ReportIsSent(crashes: seq<int>, last: Sighting, r: Report, now: int)
    ensures forall e :: e in CrashReport(crashes, last, r, now) ==> IsSent(e)
  {
    hide HasPair, Recent;
  }

  lemma {:induction false} AllOrNothing(events: seq<Event>, speak: bool)
    requires forall i :: 0 <= i < |events| ==> IsSent(events[i]) == speak
    ensures SentPart(events) == if speak then events else []
    decreases |events|
  {
    if events != [] {
      AllOrNothing(events[..|events| - 1], speak);
      assert events == events[..|events| - 1] + [events[|events| - 1]];
    }
  }
}
