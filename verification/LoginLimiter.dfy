/** Limiting login attempts per address (internal/dashboard/ratelimit.go), as the login handler
    uses it (internal/dashboard/handlers.go). */
module LoginLimiter {
  import opened Base

  const MAX_FAILURES := 5
  const FAILURE_WINDOW := 15 * MINUTE
  const LOCKOUT_PERIOD := 15 * MINUTE

  // lockedUntil is None while the source's time is zero.
  datatype Entry = Entry(failures: nat, firstFail: int, lockedUntil: Option<int>)

  type Entries = map<string, Entry>

  // ---------------------------------------------------------------- one address

  predicate Admits(e: Option<Entry>, now: int) {
    e.Some? && e.value.lockedUntil.Some? ==> now >= e.value.lockedUntil.value
  }

  predicate Locked(e: Option<Entry>) {
    e.Some? && e.value.lockedUntil.Some?
  }

  function AfterAsking(e: Option<Entry>, now: int): Option<Entry> {
    if Locked(e) && Admits(e, now) then None else e
  }

  // The readings of the clock while a failure is recorded: for a new entry, for the age of the
  // window, for a new window, and for the lock.
  datatype Clock = Clock(created: int, checked: int, restarted: int, locked: int)

  function Recorded(e: Option<Entry>, c: Clock): Entry {
    var known := if e.Some? then e.value else Entry(0, c.created, None);
    var current :=
      if c.checked - known.firstFail > FAILURE_WINDOW then known.(failures := 0, firstFail := c.restarted) else known;
    var counted := current.(failures := current.failures + 1);
    if counted.failures >= MAX_FAILURES then counted.(lockedUntil := Some(c.locked + LOCKOUT_PERIOD)) else counted
  }

  /** In whole runs the readings of one failure are taken as one. */
  function AfterFailure(e: Option<Entry>, now: int): Entry {
    Recorded(e, Clock(now, now, now, now))
  }

  predicate Reapable(e: Entry, now: int) {
    if e.lockedUntil.None? then now - e.firstFail > FAILURE_WINDOW else now > e.lockedUntil.value
  }

  function Look(entries: Entries, ip: string): Option<Entry> {
    if ip in entries then Some(entries[ip]) else None
  }

  function Put(entries: Entries, ip: string, e: Option<Entry>): (r: Entries)
    ensures Look(r, ip) == e && forall other :: other != ip ==> Look(r, other) == Look(entries, other)
  {
    if e.Some? then entries[ip := e.value] else entries - {ip}
  }

  function Reaped(entries: Entries, now: int): Entries {
    map ip | ip in entries && !Reapable(entries[ip], now) :: entries[ip]
  }

  // ---------------------------------------------------------------- the limiter

  class Limiter {
    var entries: Entries

    constructor ()
      ensures entries == map[]
    {
      entries := map[];
    }

    method Allowed(ip: string, now: int) returns (ok: bool)
      modifies this
      ensures ok == Admits(Look(old(entries), ip), now)
      ensures entries == Put(old(entries), ip, AfterAsking(Look(old(entries), ip), now))
    {
      if ip !in entries {
        return true;
      }
      var e := entries[ip];
      if e.lockedUntil.Some? && now < e.lockedUntil.value {
        return false;
      }
      if e.lockedUntil.Some? {
        entries := entries - {ip};
      }
      return true;
    }

    method RecordFailure(ip: string, c: Clock)
      modifies this
      ensures entries == Put(old(entries), ip, Some(Recorded(Look(old(entries), ip), c)))
    {
      if ip !in entries {
        entries := entries[ip := Entry(0, c.created, None)];
      }
      if c.checked - entries[ip].firstFail > FAILURE_WINDOW {
        entries := entries[ip := entries[ip].(failures := 0, firstFail := c.restarted)];
      }
      entries := entries[ip := entries[ip].(failures := entries[ip].failures + 1)];
      if entries[ip].failures >= MAX_FAILURES {
        entries := entries[ip := entries[ip].(lockedUntil := Some(c.locked + LOCKOUT_PERIOD))];
      }
    }

    method RecordSuccess(ip: string)
      modifies this
      ensures entries == Put(old(entries), ip, None)
    {
      entries := entries - {ip};
    }

    /** One tick of the reaper, which visits the entries in no particular order. */
    method Reap(now: int)
      modifies this
      ensures entries == Reaped(old(entries), now)
    {
      ghost var was := entries;
      var todo := entries.Keys;
      while todo != {}
        invariant todo <= entries.Keys <= was.Keys
        invariant forall ip :: ip in entries ==> entries[ip] == was[ip]
        invariant forall ip :: ip in was && ip !in todo ==> (ip in entries <==> !Reapable(was[ip], now))
      {
        var ip :| ip in todo;
        var e := entries[ip];
        if e.lockedUntil.None? && now - e.firstFail > FAILURE_WINDOW {
          entries := entries - {ip};
        } else if e.lockedUntil.Some? && now > e.lockedUntil.value {
          entries := entries - {ip};
        }
        todo := todo - {ip};
      }
    }
  }

  // ---------------------------------------------------------------- whole runs

  // A login attempt is Ask and, if admitted, Fail or Win; the reaper may tick anywhere.
  datatype Event =
    | Ask(ip: string, at: int)
    | Fail(ip: string, at: int)
    | Win(ip: string, at: int)
    | Reap(at: int)

  function After(entries: Entries, ev: Event): Entries {
    match ev
    case Ask(ip, at) => Put(entries, ip, AfterAsking(Look(entries, ip), at))
    case Fail(ip, at) => Put(entries, ip, Some(AfterFailure(Look(entries, ip), at)))
    case Win(ip, at) => Put(entries, ip, None)
    case Reap(at) => Reaped(entries, at)
  }

  /** The addresses with an admitted attempt still to be recorded. */
  function Pending(entries: Entries, pending: set<string>, ev: Event): set<string> {
    match ev
    case Ask(ip, at) => if Admits(Look(entries, ip), at) then pending + {ip} else pending
    case Fail(ip, _) => pending - {ip}
    case Win(ip, _) => pending - {ip}
    case Reap(_) => pending
  }

  /** Time does not run backwards, and one address's attempts do not overlap. */
  predicate Orderly(entries: Entries, pending: set<string>, now: int, events: seq<Event>)
    decreases |events|
  {
    events == [] ||
    (var ev := events[0];
     && ev.at >= now
     && (ev.Ask? ==> ev.ip !in pending)
     && (ev.Fail? || ev.Win? ==> ev.ip in pending)
     && Orderly(After(entries, ev), Pending(entries, pending, ev), ev.at, events[1..]))
  }

  /** What allowed answered, call by call. */
  function Answers(entries: Entries, events: seq<Event>): seq<bool>
    decreases |events|
  {
    if events == [] then []
    else
      var ev := events[0];
      (if ev.Ask? then [Admits(Look(entries, ev.ip), ev.at)] else []) + Answers(After(entries, ev), events[1..])
  }

  function AfterAll(entries: Entries, events: seq<Event>): Entries
    decreases |events|
  {
    if events == [] then entries else AfterAll(After(entries, events[0]), events[1..])
  }

  function WithoutReaper(events: seq<Event>): seq<Event> {
    if events == [] then []
    else (if events[0].Reap? then [] else [events[0]]) + WithoutReaper(events[1..])
  }

  // ---------------------------------------------------------------- how many failures

  ghost predicate ValidEntry(e: Option<Entry>) {
    e.Some? ==>
      && 1 <= e.value.failures
      && (e.value.lockedUntil.Some? <==> e.value.failures >= MAX_FAILURES)
  }

  predicate InSpan(at: int, start: int) {
    start <= at < start + FAILURE_WINDOW
  }

  function FailuresIn(events: seq<Event>, ip: string, start: int): nat {
    if events == [] then 0
    else (if events[0].Fail? && events[0].ip == ip && InSpan(events[0].at, start) then 1 else 0)
         + FailuresIn(events[1..], ip, start)
  }

  /** No attempt from ip succeeds in the span. */
  predicate NoWinIn(events: seq<Event>, ip: string, start: int) {
    forall i :: 0 <= i < |events| && events[i].Win? && events[i].ip == ip ==> !InSpan(events[i].at, start)
  }

  /** How many failures ip has left in the span beginning at start, once the span has begun. */
  function Allowance(e: Option<Entry>, start: int): int {
    match e
    case None => 5
    case Some(entry) =>
      if entry.lockedUntil.Some? then
        if entry.lockedUntil.value >= start + FAILURE_WINDOW then 0 else 5
      else if entry.firstFail >= start then 5 - entry.failures
      else 4 - entry.failures + 5
  }

  function Budget(e: Option<Entry>, now: int, start: int): int {
    if now < start then 8 else if now >= start + FAILURE_WINDOW then 0 else Allowance(e, start)
  }

  lemma StepSpends(entries: Entries, pending: set<string>, now: int, ev: Event, ip: string, start: int)
    requires ValidEntry(Look(entries, ip)) && (ip in pending ==> !Locked(Look(entries, ip)))
    requires Orderly(entries, pending, now, [ev]) && NoWinIn([ev], ip, start)
    ensures ValidEntry(Look(After(entries, ev), ip))
    ensures ip in Pending(entries, pending, ev) ==> !Locked(Look(After(entries, ev), ip))
    ensures FailuresIn([ev], ip, start) + Budget(Look(After(entries, ev), ip), ev.at, start)
         <= Budget(Look(entries, ip), now, start)
  {
    assert [ev][0] == ev;
  }

  lemma {:induction false} RunSpends(entries: Entries, pending: set<string>, now: int, events: seq<Event>, ip: string, start: int)
    requires ValidEntry(Look(entries, ip)) && (ip in pending ==> !Locked(Look(entries, ip)))
    requires Orderly(entries, pending, now, events) && NoWinIn(events, ip, start)
    ensures FailuresIn(events, ip, start) <= Max(0, Budget(Look(entries, ip), now, start))
    decreases |events|
  {
    if events != [] {
      var ev, rest := events[0], events[1..];
      assert Orderly(entries, pending, now, [ev]);
      StepSpends(entries, pending, now, ev, ip, start);
      RunSpends(After(entries, ev), Pending(entries, pending, ev), ev.at, rest, ip, start);
    }
  }

  /** Guessing is slow: whatever the order of attempts and reaper ticks, an address without a
      success gets at most eight failed attempts into any span of FAILURE_WINDOW. */
  lemma FailuresBounded(events: seq<Event>, now: int, ip: string, start: int)
    requires Orderly(map[], {}, now, events) && NoWinIn(events, ip, start)
    ensures FailuresIn(events, ip, start) <= 8
  {
    RunSpends(map[], {}, now, events, ip, start);
  }

  // ---------------------------------------------------------------- both bounds are exact

  /** The limiter when only one address has failed, k times since first. */
  function Only(k: nat, first: int, until: Option<int>): Entries {
    if k == 0 then map[] else map["a" := Entry(k, first, until)]
  }

  function Next(k: nat, first: int, at: int): Entries {
    Only(k, first, if k >= MAX_FAILURES then Some(at + LOCKOUT_PERIOD) else None)
  }

  function AllTrue(n: nat): seq<bool> {
    seq(n, _ => true)
  }

  function Attempts(n: nat, at: int): seq<Event> {
    if n == 0 then [] else [Ask("a", at), Fail("a", at)] + Attempts(n - 1, at)
  }

  lemma OneAttempt(k: nat, first: int, now: int, at: int, rest: seq<Event>, start: int)
    requires k < MAX_FAILURES && now <= at
    ensures var k', first' := if k == 0 || at - first > FAILURE_WINDOW then 1 else k + 1,
        if k == 0 || at - first > FAILURE_WINDOW then at else first;
      var events := [Ask("a", at), Fail("a", at)] + rest;
      var next := Next(k', first', at);
      && Answers(Only(k, first, None), events) == [true] + Answers(next, rest)
      && (Orderly(next, {}, at, rest) ==> Orderly(Only(k, first, None), {}, now, events))
      && FailuresIn(events, "a", start) == FailuresIn(rest, "a", start) + if InSpan(at, start) then 1 else 0
  {
    var entries, events := Only(k, first, None), [Ask("a", at), Fail("a", at)] + rest;
    var asked := After(entries, events[0]);
    assert asked == entries;
    assert events[1..] == [Fail("a", at)] + rest && events[1..][1..] == rest;
    assert Pending(asked, {"a"}, events[1]) == {};
    assert {} + {"a"} == {"a"};
    var restart := k == 0 || at - first > FAILURE_WINDOW;
    var k' := if restart then 1 else k + 1;
    assert After(asked, events[1])
        == Next(k', if restart then at else first, at);
    assert Answers(entries, events) == [true] + Answers(asked, events[1..]);
  }

  lemma {:induction false} MoreFailures(k: nat, first: int, now: int, n: nat, at: int, rest: seq<Event>, start: int)
    requires 0 < n && k + n <= MAX_FAILURES && now <= at
    requires k == 0 ==> first == at
    requires at - first <= FAILURE_WINDOW
    ensures Orderly(Next(k + n, first, at), {}, at, rest) ==>
      Orderly(Only(k, first, None), {}, now, Attempts(n, at) + rest)
    ensures FailuresIn(Attempts(n, at) + rest, "a", start)
         == FailuresIn(rest, "a", start) + if InSpan(at, start) then n else 0
    decreases n
  {
    var more := Attempts(n - 1, at) + rest;
    assert Attempts(n, at) + rest == [Ask("a", at), Fail("a", at)] + more;
    assert n == 1 ==> more == rest;
    OneAttempt(k, first, now, at, more, start);
    hide Answers, Orderly, FailuresIn, Attempts, Only, InSpan;
    if n > 1 {
      MoreFailures(k + 1, first, at, n - 1, at, rest, start);
    }
  }

  lemma OneAnswer(k: nat, first: int, at: int, rest: seq<Event>)
    requires k < MAX_FAILURES && (k == 0 ==> first == at) && at - first <= FAILURE_WINDOW
    ensures Answers(Only(k, first, None), [Ask("a", at), Fail("a", at)] + rest)
         == [true] + Answers(Next(k + 1, first, at), rest)
  {
    OneAttempt(k, first, at, at, rest, at);
    hide Answers, Orderly, FailuresIn, Only, InSpan;
  }

  lemma {:induction false} MoreAnswers(k: nat, first: int, n: nat, at: int, rest: seq<Event>)
    requires 0 < n && k + n <= MAX_FAILURES
    requires k == 0 ==> first == at
    requires at - first <= FAILURE_WINDOW
    ensures Answers(Only(k, first, None), Attempts(n, at) + rest)
         == AllTrue(n) + Answers(Next(k + n, first, at), rest)
    decreases n
  {
    var more, answers := Attempts(n - 1, at) + rest, Answers(Next(k + n, first, at), rest);
    assert Attempts(n, at) + rest == [Ask("a", at), Fail("a", at)] + more;
    assert AllTrue(n) + answers == [true] + (AllTrue(n - 1) + answers);
    assert n == 1 ==> more == rest && AllTrue(n - 1) + answers == answers;
    OneAnswer(k, first, at, more);
    hide Answers, Attempts, AllTrue, Only;
    if n > 1 {
      MoreAnswers(k + 1, first, n - 1, at, rest);
    }
  }

  /** Eight is reached: three late failures of one window, five of the next. */
  lemma EightFailures()
    ensures exists events, start ::
      Orderly(map[], {}, 0, events) && NoWinIn(events, "a", start) && FailuresIn(events, "a", start) == 8
  {
    var again, start := FAILURE_WINDOW + 1, 10;
    var last := Attempts(4, again);
    var second := [Ask("a", again), Fail("a", again)] + last;
    var third := Attempts(3, 20) + second;
    var events := Attempts(1, 0) + third;
    assert last + [] == last;
    assert Orderly(Only(5, again, Some(again + LOCKOUT_PERIOD)), {}, again, []) && FailuresIn([], "a", start) == 0;
    assert Only(0, 0, None) == map[];
    assert !InSpan(0, start) && InSpan(20, start) && InSpan(again, start);
    hide Orderly, FailuresIn, Attempts, Answers, Only, NoWinIn, InSpan;
    MoreFailures(0, 0, 0, 1, 0, third, start);
    MoreFailures(1, 0, 0, 3, 20, second, start);
    OneAttempt(4, 0, 20, again, last, start);
    MoreFailures(1, again, again, 4, again, [], start);
    NoWinInAttempts(again, start);
  }

  lemma NoWinInAttempts(again: int, start: int)
    ensures var second := [Ask("a", again), Fail("a", again)] + Attempts(4, again);
      NoWinIn(Attempts(1, 0) + (Attempts(3, 20) + second), "a", start)
  {
    AttemptsDoNotWin(1, 0);
    AttemptsDoNotWin(3, 20);
    AttemptsDoNotWin(4, again);
    hide Attempts;
  }

  lemma {:induction false} AttemptsDoNotWin(n: nat, at: int)
    ensures forall ev :: ev in Attempts(n, at) ==> !ev.Win?
  {
    if n > 0 {
      AttemptsDoNotWin(n - 1, at);
    }
  }

  // Attempt B is admitted before the address is locked and recorded after the lock ran out.
  function Overlap(ticks: seq<Event>): seq<Event> {
    [Ask("a", 0)] + (Attempts(5, 0) + (ticks + ([Fail("a", LATE)] + (Attempts(4, LATE) + [Ask("a", LATE)]))))
  }

  const LATE := LOCKOUT_PERIOD + 1

  /** Attempts that overlap do depend on the reaper: B's failure revives the stale lock, which the
      next question forgets together with the failure, unless the reaper removed it first. */
  lemma OverlappingAttempts()
    ensures Answers(map[], Overlap([Reap(LATE)])) == AllTrue(10) + [false]
    ensures Answers(map[], Overlap([])) == AllTrue(11)
  {
    var ask := [Ask("a", LATE)];
    var four := Attempts(4, LATE) + ask;
    LockedAgain(ask);
    FromStale(ask);
    FromFailure(four);
    hide Answers, Only, Attempts;
    BeforeTick([Reap(LATE)] + ([Fail("a", LATE)] + four));
    BeforeTick([] + ([Fail("a", LATE)] + four));
  }

  lemma BeforeTick(rest: seq<Event>)
    ensures Answers(map[], [Ask("a", 0)] + (Attempts(5, 0) + rest))
         == AllTrue(6) + Answers(Only(5, 0, Some(LOCKOUT_PERIOD)), rest)
  {
    FirstAsk(Attempts(5, 0) + rest);
    MoreAnswers(0, 0, 5, 0, rest);
    assert Only(0, 0, None) == map[];
    hide Answers, Only, Attempts;
  }

  lemma LockedAgain(ask: seq<Event>)
    requires ask == [Ask("a", LATE)]
    ensures Answers(Only(1, LATE, None), Attempts(4, LATE) + ask) == AllTrue(4) + [false]
  {
    MoreAnswers(1, LATE, 4, LATE, ask);
    assert Answers(Only(5, LATE, Some(LATE + LOCKOUT_PERIOD)), ask) == [false];
  }

  lemma FirstAsk(rest: seq<Event>)
    ensures Answers(map[], [Ask("a", 0)] + rest) == [true] + Answers(map[], rest)
  {
    assert After(map[], Ask("a", 0)) == map[];
    assert ([Ask("a", 0)] + rest)[1..] == rest;
  }

  /** B's failure on the locked entry, after and without a tick of the reaper. */
  lemma FromFailure(rest: seq<Event>)
    ensures var locked := Only(5, 0, Some(LOCKOUT_PERIOD));
      && Answers(locked, [Reap(LATE)] + ([Fail("a", LATE)] + rest)) == Answers(Only(1, LATE, None), rest)
      && Answers(locked, [] + ([Fail("a", LATE)] + rest)) == Answers(Only(1, LATE, Some(LOCKOUT_PERIOD)), rest)
  {
    var locked, failed := Only(5, 0, Some(LOCKOUT_PERIOD)), [Fail("a", LATE)] + rest;
    assert Reaped(locked, LATE) == map[];
    assert failed[1..] == rest && ([Reap(LATE)] + failed)[1..] == failed && [] + failed == failed;
    assert After(map[], failed[0]) == Only(1, LATE, None);
    assert After(locked, failed[0]) == Only(1, LATE, Some(LOCKOUT_PERIOD));
  }

  lemma FromStale(ask: seq<Event>)
    requires ask == [Ask("a", LATE)]
    ensures Answers(Only(1, LATE, Some(LOCKOUT_PERIOD)), Attempts(4, LATE) + ask) == AllTrue(5)
  {
    var more := Attempts(3, LATE) + ask;
    var events := Attempts(4, LATE) + ask;
    assert events == [Ask("a", LATE), Fail("a", LATE)] + more;
    var stale := Only(1, LATE, Some(LOCKOUT_PERIOD));
    assert After(stale, events[0]) == map[];
    assert events[1..] == [Fail("a", LATE)] + more && events[1..][1..] == more;
    assert After(map[], events[1]) == Only(1, LATE, None);
    assert Answers(stale, events) == [true] + Answers(map[], events[1..]);
    MoreAnswers(1, LATE, 3, LATE, ask);
    assert Answers(Only(4, LATE, None), ask) == [true];
  }

  // ---------------------------------------------------------------- the lock

  /** Failed attempts of one address at the given times. */
  function FailuresAt(ip: string, times: seq<int>): seq<Event> {
    if times == [] then []
    else FailuresAt(ip, times[..|times| - 1]) + [Ask(ip, times[|times| - 1]), Fail(ip, times[|times| - 1])]
  }

  predicate OneWindow(times: seq<int>) {
    && (forall i, j :: 0 <= i < j < |times| ==> times[i] <= times[j])
    && (forall i :: 0 <= i < |times| ==> times[i] - times[0] <= 15 * 60 * SECOND)
  }

  lemma {:induction false} AfterTwo(entries: Entries, events: seq<Event>, a: Event, b: Event)
    ensures AfterAll(entries, events + [a, b]) == After(After(AfterAll(entries, events), a), b)
    decreases |events|
  {
    if events == [] {
      assert events + [a, b] == [a, b] && [a, b][1..] == [b];
      assert AfterAll(After(After(entries, a), b), [b][1..]) == After(After(entries, a), b);
    } else {
      assert (events + [a, b])[1..] == events[1..] + [a, b];
      AfterTwo(After(entries, events[0]), events[1..], a, b);
    }
  }

  lemma {:induction false} WindowCounts(ip: string, times: seq<int>)
    requires OneWindow(times) && 1 <= |times| <= 5
    ensures Look(AfterAll(map[], FailuresAt(ip, times)), ip) ==
      Some(Entry(|times|, times[0], if |times| == 5 then Some(times[4] + LOCKOUT_PERIOD) else None))
    decreases |times|
  {
    var n := |times| - 1;
    AfterTwo(map[], FailuresAt(ip, times[..n]), Ask(ip, times[n]), Fail(ip, times[n]));
    if n > 0 {
      assert OneWindow(times[..n]) by { assert forall i :: 0 <= i < n ==> times[..n][i] == times[i]; }
      WindowCounts(ip, times[..n]);
    }
  }

  /** Up to four failures within fifteen minutes of the first leave an address free to try; the
      fifth locks it for fifteen minutes, to the nanosecond. */
  lemma FiveFailuresLock(ip: string, times: seq<int>, now: int)
    requires OneWindow(times) && |times| <= 5
    ensures Admits(Look(AfterAll(map[], FailuresAt(ip, times)), ip), now) <==>
      |times| < 5 || now >= times[4] + 15 * 60 * SECOND
  {
    if times != [] {
      WindowCounts(ip, times);
    }
  }

  /** A failure after the window's end begins a new one. */
  lemma LateFailureRestarts(ip: string, times: seq<int>, late: int)
    requires OneWindow(times) && 1 <= |times| < 5 && late > times[0] + 15 * 60 * SECOND
    ensures Look(AfterAll(map[], FailuresAt(ip, times) + [Ask(ip, late), Fail(ip, late)]), ip) == Some(Entry(1, late, None))
  {
    WindowCounts(ip, times);
    AfterTwo(map[], FailuresAt(ip, times), Ask(ip, late), Fail(ip, late));
  }

  /** A tick forgets an address exactly if its window or its lock is over. */
  lemma ReapedExactly(entries: Entries, now: int, ip: string)
    ensures Look(Reaped(entries, now), ip) ==
      if ip !in entries then None
      else match entries[ip].lockedUntil
           case None => if now - entries[ip].firstFail > 15 * 60 * SECOND then None else Some(entries[ip])
           case Some(until) => if now > until then None else Some(entries[ip])
  {
  }
}
