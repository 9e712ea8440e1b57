/** When the login limiter's reaper can be told from its absence (internal/dashboard/ratelimit.go),
    however the attempts of an address overlap. */
module LoginReaper {
  import opened Base
  import opened LoginLimiter

  // ---------------------------------------------------------------- runs of any attempts

  predicate Timely(now: int, events: seq<Event>)
    decreases |events|
  {
    events == [] || (events[0].at >= now && Timely(events[0].at, events[1..]))
  }

  function LastTime(now: int, events: seq<Event>): int
    decreases |events|
  {
    if events == [] then now else LastTime(events[0].at, events[1..])
  }

  predicate NoReaper(events: seq<Event>) {
    forall i :: 0 <= i < |events| ==> !events[i].Reap?
  }

  /** A failure is recorded on an entry whose lock has run out: its attempt was admitted before the
      lock, and another question since would have removed it. */
  predicate StaleFailure(entries: Entries, ev: Event) {
    ev.Fail? && Locked(Look(entries, ev.ip)) && ev.at > Look(entries, ev.ip).value.lockedUntil.value
  }

  predicate NeverStale(entries: Entries, events: seq<Event>)
    decreases |events|
  {
    events == [] || (!StaleFailure(entries, events[0]) && NeverStale(After(entries, events[0]), events[1..]))
  }

  // ---------------------------------------------------------------- the reaper cannot be told

  // One limiter may have forgotten what the other could forget any time now.
  predicate Alike(kept: Option<Entry>, reaped: Option<Entry>, now: int) {
    kept == reaped || (kept.Some? && reaped.None? && Reapable(kept.value, now))
  }

  ghost predicate AllAlike(kept: Entries, reaped: Entries, now: int) {
    forall ip :: Alike(Look(kept, ip), Look(reaped, ip), now)
  }

  function Untouched(kept: Entries, ev: Event): Entries {
    if ev.Reap? then kept else After(kept, ev)
  }

  lemma AlikeAfter(kept: Entries, reaped: Entries, now: int, ev: Event)
    requires AllAlike(kept, reaped, now) && ev.at >= now && !StaleFailure(kept, ev)
    ensures AllAlike(Untouched(kept, ev), After(reaped, ev), ev.at)
    ensures ev.Ask? ==> Admits(Look(kept, ev.ip), ev.at) == Admits(Look(reaped, ev.ip), ev.at)
  {
    forall ip ensures Alike(Look(Untouched(kept, ev), ip), Look(After(reaped, ev), ip), ev.at) {
      assert Alike(Look(kept, ip), Look(reaped, ip), now);
    }
    if ev.Ask? {
      assert Alike(Look(kept, ev.ip), Look(reaped, ev.ip), now);
    }
  }

  lemma {:induction false} SameAnswers(kept: Entries, reaped: Entries, now: int, events: seq<Event>)
    requires AllAlike(kept, reaped, now) && Timely(now, events) && NeverStale(kept, WithoutReaper(events))
    ensures Answers(reaped, events) == Answers(kept, WithoutReaper(events))
    decreases |events|
  {
    if events != [] {
      var ev, rest := events[0], events[1..];
      if ev.Reap? {
        assert WithoutReaper(events) == WithoutReaper(rest);
      } else {
        assert WithoutReaper(events)[1..] == WithoutReaper(rest) && WithoutReaper(events)[0] == ev;
      }
      AlikeAfter(kept, reaped, now, ev);
      SameAnswers(Untouched(kept, ev), After(reaped, ev), ev.at, rest);
    }
  }

  /** However often the reaper runs, and whenever, and however attempts overlap: no login is
      answered differently for it, if no failure is recorded on a lock that has run out. */
  lemma ReaperIsInvisible(events: seq<Event>, now: int)
    requires Timely(now, events) && NeverStale(map[], WithoutReaper(events))
    ensures Answers(map[], events) == Answers(map[], WithoutReaper(events))
  {
    SameAnswers(map[], map[], now, events);
  }

  ghost predicate PendingUnlocked(entries: Entries, pending: set<string>) {
    forall ip :: ip in pending ==> !Locked(Look(entries, ip))
  }

  lemma {:induction false} OrderlyIsNeverStale(kept: Entries, reaped: Entries, pending: set<string>, now: int, events: seq<Event>)
    requires AllAlike(kept, reaped, now) && PendingUnlocked(kept, pending) && Orderly(reaped, pending, now, events)
    ensures Timely(now, events) && NeverStale(kept, WithoutReaper(events))
    decreases |events|
  {
    if events != [] {
      var ev, rest := events[0], events[1..];
      AlikeAfter(kept, reaped, now, ev);
      assert PendingUnlocked(Untouched(kept, ev), Pending(reaped, pending, ev));
      OrderlyIsNeverStale(Untouched(kept, ev), After(reaped, ev), Pending(reaped, pending, ev), ev.at, rest);
      if ev.Reap? {
        assert WithoutReaper(events) == WithoutReaper(rest);
      } else {
        assert WithoutReaper(events)[1..] == WithoutReaper(rest) && WithoutReaper(events)[0] == ev;
      }
    }
  }

  /** Attempts that do not overlap never meet such a lock. */
  lemma InvisibleToAtomicAttempts(events: seq<Event>, now: int)
    requires Orderly(map[], {}, now, events)
    ensures Answers(map[], events) == Answers(map[], WithoutReaper(events))
  {
    OrderlyIsNeverStale(map[], map[], {}, now, events);
    ReaperIsInvisible(events, now);
  }

  // ---------------------------------------------------------------- pieces of runs

  lemma {:induction false} AnswersConcat(entries: Entries, a: seq<Event>, b: seq<Event>)
    ensures Answers(entries, a + b) == Answers(entries, a) + Answers(AfterAll(entries, a), b)
    decreases |a|
  {
    if a == [] {
      assert a + b == b;
    } else {
      assert (a + b)[1..] == a[1..] + b;
      AnswersConcat(After(entries, a[0]), a[1..], b);
    }
  }

  lemma {:induction false} NeverStaleConcat(entries: Entries, a: seq<Event>, b: seq<Event>)
    ensures NeverStale(entries, a + b) <==> NeverStale(entries, a) && NeverStale(AfterAll(entries, a), b)
    decreases |a|
  {
    if a == [] {
      assert a + b == b;
    } else {
      assert (a + b)[1..] == a[1..] + b;
      NeverStaleConcat(After(entries, a[0]), a[1..], b);
    }
  }

  lemma {:induction false} TimelyConcat(now: int, a: seq<Event>, b: seq<Event>)
    ensures Timely(now, a + b) <==> Timely(now, a) && Timely(LastTime(now, a), b)
    decreases |a|
  {
    if a == [] {
      assert a + b == b;
    } else {
      assert (a + b)[1..] == a[1..] + b;
      TimelyConcat(a[0].at, a[1..], b);
    }
  }

  lemma {:induction false} WithoutReaperConcat(a: seq<Event>, b: seq<Event>)
    ensures WithoutReaper(a + b) == WithoutReaper(a) + WithoutReaper(b)
    decreases |a|
  {
    if a == [] {
      assert a + b == b;
    } else {
      assert (a + b)[1..] == a[1..] + b;
      WithoutReaperConcat(a[1..], b);
    }
  }

  lemma {:induction false} NothingToLeaveOut(events: seq<Event>)
    requires NoReaper(events)
    ensures WithoutReaper(events) == events
  {
    if events != [] {
      NothingToLeaveOut(events[1..]);
    }
  }

  // ---------------------------------------------------------------- a stale failure tells

  /** n failed attempts at one moment, and one more question. */
  function Tries(n: nat, ip: string, at: int): seq<Event> {
    if n == 0 then [Ask(ip, at)] else [Ask(ip, at), Fail(ip, at)] + Tries(n - 1, ip, at)
  }

  lemma {:induction false} TriesFrom(entries: Entries, ip: string, k: nat, first: int, n: nat, at: int)
    requires Look(entries, ip) == Some(Entry(k, first, None)) && at - first <= FAILURE_WINDOW && k + n <= MAX_FAILURES
    requires k < MAX_FAILURES
    ensures Answers(entries, Tries(n, ip, at)) == AllTrue(n) + [k + n < MAX_FAILURES]
    ensures Orderly(entries, {}, at, Tries(n, ip, at))
    decreases n
  {
    if n == 0 {
      OneQuestion(entries, ip, at);
    } else {
      var rest := Tries(n - 1, ip, at);
      var failed := After(After(entries, Ask(ip, at)), Fail(ip, at));
      TryOnce(entries, ip, at, rest);
      assert AllTrue(n) == [true] + AllTrue(n - 1);
      if k + 1 < MAX_FAILURES {
        assert Look(failed, ip) == Some(Entry(k + 1, first, None));
        hide Answers, Orderly;
        TriesFrom(failed, ip, k + 1, first, n - 1, at);
      } else {
        assert !Admits(Look(failed, ip), at);
        OneQuestion(failed, ip, at);
      }
    }
  }

  lemma OneQuestion(entries: Entries, ip: string, at: int)
    ensures Answers(entries, Tries(0, ip, at)) == [Admits(Look(entries, ip), at)]
    ensures Orderly(entries, {}, at, Tries(0, ip, at))
  {
    assert Tries(0, ip, at)[1..] == [];
  }

  /** One admitted attempt that fails, before others. */
  lemma TryOnce(entries: Entries, ip: string, at: int, rest: seq<Event>)
    requires Admits(Look(entries, ip), at)
    ensures var events, failed := [Ask(ip, at), Fail(ip, at)] + rest, After(After(entries, Ask(ip, at)), Fail(ip, at));
      && Answers(entries, events) == [true] + Answers(failed, rest)
      && (Orderly(failed, {}, at, rest) ==> Orderly(entries, {}, at, events))
  {
    var events := [Ask(ip, at), Fail(ip, at)] + rest;
    assert events[1..] == [Fail(ip, at)] + rest && events[1..][1..] == rest;
    assert {} + {ip} == {ip} && {ip} - {ip} == {};
    AskNothing(After(entries, Ask(ip, at)), events[1..]);
  }

  /** What follows a stale failure at one moment, by what became of the lock. */
  function Telling(entries: Entries, ev: Event): seq<Event>
    requires ev.Fail?
  {
    if AfterFailure(Look(entries, ev.ip), ev.at).failures >= MAX_FAILURES then Tries(0, ev.ip, ev.at)
    else Tries(4, ev.ip, ev.at)
  }

  lemma StaleFailureTells(entries: Entries, ev: Event)
    requires StaleFailure(entries, ev)
    ensures var rest := Telling(entries, ev);
      && Orderly(After(entries, ev), {}, ev.at, rest) && NoReaper(rest)
      && Answers(After(entries, ev), rest) != Answers(After(Reaped(entries, ev.at), ev), rest)
  {
    var ip, at, rest := ev.ip, ev.at, Telling(entries, ev);
    var kept, reaped := After(entries, ev), After(Reaped(entries, at), ev);
    assert Look(reaped, ip) == Some(Entry(1, at, None));
    TriesAreNoReaper(4, ip, at);
    if AfterFailure(Look(entries, ip), at).failures >= MAX_FAILURES {
      OneQuestion(kept, ip, at);
      OneQuestion(reaped, ip, at);
      assert !Admits(Look(kept, ip), at) && Admits(Look(reaped, ip), at);
      hide Answers, Orderly;
      assert Answers(kept, rest)[0] != Answers(reaped, rest)[0];
    } else {
      TriesFrom(reaped, ip, 1, at, 4, at);
      FromStaleLock(kept, ip, at);
      assert AllTrue(5)[4] && !(AllTrue(4) + [false])[4];
    }
  }

  lemma {:induction false} TriesAreNoReaper(n: nat, ip: string, at: int)
    ensures NoReaper(Tries(n, ip, at)) && NoReaper(Tries(0, ip, at))
  {
    if n > 0 {
      TriesAreNoReaper(n - 1, ip, at);
    }
  }

  lemma FromStaleLock(entries: Entries, ip: string, at: int)
    requires Locked(Look(entries, ip)) && Look(entries, ip).value.lockedUntil.value < at
    ensures Answers(entries, Tries(4, ip, at)) == AllTrue(5) && Orderly(entries, {}, at, Tries(4, ip, at))
  {
    var rest := Tries(3, ip, at);
    var failed := After(After(entries, Ask(ip, at)), Fail(ip, at));
    TryOnce(entries, ip, at, rest);
    assert Look(failed, ip) == Some(Entry(1, at, None));
    TriesFrom(failed, ip, 1, at, 3, at);
    assert AllTrue(5) == [true] + (AllTrue(3) + [true]);
  }

  lemma {:induction false} FindStale(entries: Entries, events: seq<Event>) returns (k: nat)
    requires !NeverStale(entries, events)
    ensures k < |events| && StaleFailure(AfterAll(entries, events[..k]), events[k])
    decreases |events|
  {
    if StaleFailure(entries, events[0]) {
      k := 0;
    } else {
      var i := FindStale(After(entries, events[0]), events[1..]);
      k := i + 1;
      assert events[..k][1..] == events[1..][..i];
    }
  }

  /** Attempts after the k-th event that do not overlap. */
  predicate Continues(events: seq<Event>, k: nat, rest: seq<Event>)
    requires k < |events|
  {
    Orderly(AfterAll(map[], events[..k + 1]), {}, events[k].at, rest) && NoReaper(rest)
  }

  /** The answers show whether the reaper ran just before the k-th event. */
  predicate TickShows(events: seq<Event>, k: nat, rest: seq<Event>)
    requires k < |events|
  {
    Answers(map[], events[..k] + ([Reap(events[k].at)] + ([events[k]] + rest)))
      != Answers(map[], events[..k] + ([events[k]] + rest))
  }

  lemma TickHidden(events: seq<Event>, now: int, k: nat, rest: seq<Event>)
    requires k < |events| && Timely(now, events) && NoReaper(events) && NeverStale(map[], events)
    requires Continues(events, k, rest)
    ensures !TickShows(events, k, rest)
  {
    var ev, before := events[k], events[..k];
    var tail, tick := [ev] + rest, [Reap(ev.at)] + ([ev] + rest);
    NeverStaleWith(events, now, k, rest);
    NothingToLeaveOut(rest);
    NothingToLeaveOut(before);
    WithoutReaperConcat(before, tick);
    WithoutReaperConcat(before, tail);
    assert tick[1..] == tail && tail[1..] == rest;
    assert WithoutReaper(tail) == tail && WithoutReaper(tick) == tail;
    hide Answers, Orderly, NeverStale, Timely, WithoutReaper;
    ReaperIsInvisible(before + tick, now);
  }

  /** Attempts that do not overlap add no stale failure to a history without any. */
  lemma NeverStaleWith(events: seq<Event>, now: int, k: nat, rest: seq<Event>)
    requires k < |events| && Timely(now, events) && NeverStale(map[], events) && Continues(events, k, rest)
    ensures var tail := [events[k]] + rest;
      && NeverStale(map[], events[..k] + tail)
      && Timely(now, events[..k] + ([Reap(events[k].at)] + tail))
  {
    var ev, before, tail := events[k], events[..k], [events[k]] + rest;
    var after := AfterAll(map[], events[..k + 1]);
    assert events == before + events[k..] && events[k..][0] == ev && events[..k + 1] == before + [ev];
    NeverStaleConcat(map[], before, events[k..]);
    NeverStaleConcat(map[], before, tail);
    TimelyConcat(now, before, events[k..]);
    var tick := [Reap(ev.at)] + tail;
    TimelyConcat(now, before, tick);
    assert tail[1..] == rest && tick[1..] == tail;
    AfterOneMore(map[], before, ev);
    OrderlyIsNeverStale(after, after, {}, ev.at, rest);
    NothingToLeaveOut(rest);
  }

  lemma {:induction false} AfterOneMore(entries: Entries, events: seq<Event>, ev: Event)
    ensures AfterAll(entries, events + [ev]) == After(AfterAll(entries, events), ev)
    decreases |events|
  {
    if events == [] {
      assert (events + [ev])[1..] == [];
    } else {
      assert (events + [ev])[1..] == events[1..] + [ev];
      AfterOneMore(After(entries, events[0]), events[1..], ev);
    }
  }

  /** Over all histories of attempts, overlapping or not: a tick of the reaper can never be told
      by any attempts that follow, exactly if no failure is recorded on a lock that has run out. */
  lemma InvisibleExactly(events: seq<Event>, now: int)
    requires Timely(now, events) && NoReaper(events)
    ensures NeverStale(map[], events) <==>
      forall k: nat, rest :: k < |events| && Continues(events, k, rest) ==> !TickShows(events, k, rest)
  {
    if NeverStale(map[], events) {
      forall k: nat, rest | k < |events| && Continues(events, k, rest) ensures !TickShows(events, k, rest) {
        TickHidden(events, now, k, rest);
      }
    } else {
      var k := FindStale(map[], events);
      var ev, before := events[k], AfterAll(map[], events[..k]);
      var rest := Telling(before, ev);
      StaleFailureTells(before, ev);
      assert events[..k + 1] == events[..k] + [ev];
      AfterOneMore(map[], events[..k], ev);
      assert Continues(events, k, rest);
      TickTells(events, k, rest);
    }
  }

  lemma TickTells(events: seq<Event>, k: nat, rest: seq<Event>)
    requires k < |events|
    requires var before := AfterAll(map[], events[..k]);
      Answers(After(before, events[k]), rest) != Answers(After(Reaped(before, events[k].at), events[k]), rest)
    requires events[k].Fail?
    ensures TickShows(events, k, rest)
  {
    var ev, before := events[k], AfterAll(map[], events[..k]);
    var tail, tick := [ev] + rest, [Reap(ev.at)] + ([ev] + rest);
    assert tick[1..] == tail && tail[1..] == rest;
    AskNothing(before, tail);
    AskNothing(before, tick);
    AskNothing(Reaped(before, ev.at), tail);
    AnswersConcat(map[], events[..k], tail);
    AnswersConcat(map[], events[..k], tick);
    hide Answers, AfterAll, After;
    SamePrefix(Answers(map[], events[..k]), Answers(before, tick), Answers(before, tail));
  }

  lemma AskNothing(entries: Entries, events: seq<Event>)
    requires events != [] && !events[0].Ask?
    ensures Answers(entries, events) == Answers(After(entries, events[0]), events[1..])
  {
  }

  lemma SamePrefix(a: seq<bool>, b: seq<bool>, c: seq<bool>)
    ensures a + b == a + c ==> b == c
  {
    assert (a + b)[|a|..] == b && (a + c)[|a|..] == c;
  }
}
