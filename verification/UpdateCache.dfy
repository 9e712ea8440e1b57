/** The agent's cache of registry checks (internal/agent/updates.go): one background loop checks
    the images in use, while finishing upgrades drop entries at any moment. */
module UpdateCache {
  import opened Base

  const UPDATE_CHECK_INTERVAL := 5 * MINUTE

  datatype Entry = Entry(available: bool, checkedAt: int)

  type Cache = map<string, Entry>

  datatype Container = Container(imageID: string, image: string)

  // How an image was checked: a bare image ID has no tag to compare, a check may fail.
  datatype Answer = Bare | Answered(available: bool) | Failed

  // What the pass does and what happens to it, in the order of the locked sections.
  datatype Event =
    | Asked(id: string, at: int)
    | Stored(id: string, answer: Answer, at: int)
    | Dropped(id: string)
    | Swept(kept: set<string>)

  datatype State = State(cache: Cache, log: seq<Event>)

  // The surroundings of one loop round: entries dropped before it looks at the cache and after,
  // while it may ask the registry, its two readings of the clock, and the registry's answer (None: it failed).
  datatype Turn = Turn(before: seq<string>, asked: int, during: seq<string>, answer: Option<bool>, stored: int)

  // ---------------------------------------------------------------- the pass on values

  function Look(cache: Cache, id: string): Option<Entry> {
    if id in cache then Some(cache[id]) else None
  }

  predicate Due(cached: Option<Entry>, now: int) {
    cached.Some? ==> now - cached.value.checkedAt >= UPDATE_CHECK_INTERVAL
  }

  predicate IsBare(image: string) {
    image == "" || "sha256:" <= image
  }

  function AnswerFor(image: string, answer: Option<bool>): Answer {
    if IsBare(image) then Bare else if answer.Some? then Answered(answer.value) else Failed
  }

  function ValueOf(answer: Answer, kept: bool): bool {
    match answer
    case Bare => false
    case Answered(available) => available
    case Failed => kept
  }

  function Available(cached: Option<Entry>): bool {
    cached.Some? && cached.value.available
  }

  function Drop(st: State, id: string): State {
    State(st.cache - {id}, st.log + [Event.Dropped(id)])
  }

  function DropAll(st: State, ids: seq<string>): State {
    if ids == [] then st else Drop(DropAll(st, ids[..|ids| - 1]), ids[|ids| - 1])
  }

  function Store(st: State, id: string, answer: Answer, kept: bool, at: int): State {
    State(st.cache[id := Entry(ValueOf(answer, kept), at)], st.log + [Stored(id, answer, at)])
  }

  function Check(st: State, c: Container, turn: Turn): State {
    var asked := DropAll(st.(log := st.log + [Asked(c.imageID, turn.asked)]), turn.during);
    Store(asked, c.imageID, AnswerFor(c.image, turn.answer), Available(Look(st.cache, c.imageID)), turn.stored)
  }

  function Round(st: State, inUse: set<string>, c: Container, turn: Turn): State {
    var st' := DropAll(st, turn.before);
    if c.imageID != "" && c.imageID !in inUse && Due(Look(st'.cache, c.imageID), turn.asked) then
      Check(st', c, turn)
    else
      DropAll(st', turn.during)
  }

  function InUse(containers: seq<Container>): set<string> {
    set c | c in containers && c.imageID != "" :: c.imageID
  }

  function Rounds(st: State, containers: seq<Container>, turns: seq<Turn>): State
    requires |containers| == |turns|
  {
    if containers == [] then st
    else
      var n := |containers| - 1;
      Round(Rounds(st, containers[..n], turns[..n]), InUse(containers[..n]), containers[n], turns[n])
  }

  lemma RoundsStep(st: State, containers: seq<Container>, turns: seq<Turn>, i: nat)
    requires i < |containers| == |turns|
    ensures Rounds(st, containers[..i + 1], turns[..i + 1])
         == Round(Rounds(st, containers[..i], turns[..i]), InUse(containers[..i]), containers[i], turns[i])
    ensures InUse(containers[..i + 1]) == InUse(containers[..i]) + InUse([containers[i]])
    ensures InUse([containers[i]]) == if containers[i].imageID == "" then {} else {containers[i].imageID}
  {
    assert containers[..i + 1][..i] == containers[..i] && turns[..i + 1][..i] == turns[..i];
    assert containers[..i + 1] == containers[..i] + [containers[i]];
  }

  function Sweep(st: State, inUse: set<string>): State {
    State(map id | id in st.cache && id in inUse :: st.cache[id], st.log + [Swept(inUse)])
  }

  function Pass(st: State, containers: seq<Container>, turns: seq<Turn>, last: seq<string>): State
    requires |containers| == |turns|
  {
    Sweep(DropAll(Rounds(st, containers, turns), last), InUse(containers))
  }

  // ---------------------------------------------------------------- the object

  class Checker {
    var cache: Cache
    ghost var log: seq<Event>

    constructor ()
      ensures cache == map[] && log == []
    {
      cache, log := map[], [];
    }

    ghost function Contents(): State
      reads this
    {
      State(cache, log)
    }

    method UpdateAvailable(id: string) returns (r: bool)
      ensures r == Available(Look(cache, id))
    {
      return id in cache && cache[id].available;
    }

    method DropEntry(id: string)
      modifies this
      ensures Contents() == Drop(old(Contents()), id)
    {
      cache := cache - {id};
      log := log + [Event.Dropped(id)];
    }

    /** Other goroutines' turns at the lock. */
    method DropEntries(ids: seq<string>)
      modifies this
      ensures Contents() == DropAll(old(Contents()), ids)
    {
      for i := 0 to |ids|
        invariant Contents() == DropAll(old(Contents()), ids[..i])
      {
        assert ids[..i + 1][..i] == ids[..i];
        DropEntry(ids[i]);
      }
      assert ids[..|ids|] == ids;
    }

    method CheckUpdatesOnce(containers: seq<Container>, turns: seq<Turn>, last: seq<string>)
      requires |containers| == |turns|
      modifies this
      ensures Contents() == Pass(old(Contents()), containers, turns, last)
    {
      ghost var st := Contents();
      assert InUse(containers[..0]) == {} && Rounds(st, containers[..0], turns[..0]) == st;
      hide Rounds, Round, InUse, DropAll, Sweep;
      var inUse: set<string> := {};
      for i := 0 to |containers|
        invariant inUse == InUse(containers[..i])
        invariant Contents() == Rounds(old(Contents()), containers[..i], turns[..i])
      {
        var c := containers[i];
        RoundsStep(old(Contents()), containers, turns, i);
        CheckContainer(inUse, c, turns[i]);
        if c.imageID != "" && c.imageID !in inUse {
          inUse := inUse + {c.imageID};
        }
      }
      assert containers[..|containers|] == containers && turns[..|turns|] == turns;
      DropEntries(last);
      SweepUnused(inUse);
    }

    /** The loop's body for one container. */
    method CheckContainer(inUse: set<string>, c: Container, turn: Turn)
      modifies this
      ensures Contents() == Round(old(Contents()), inUse, c, turn)
    {
      hide DropAll, Drop;
      DropEntries(turn.before);
      if c.imageID == "" || c.imageID in inUse {
        DropEntries(turn.during);
        return;
      }
      var cached, entry := c.imageID in cache, Entry(false, 0);
      if cached {
        entry := cache[c.imageID];
      }
      if cached && turn.asked - entry.checkedAt < UPDATE_CHECK_INTERVAL {
        DropEntries(turn.during);
        return;
      }
      log := log + [Asked(c.imageID, turn.asked)];
      var available := entry.available;
      if c.image == "" || "sha256:" <= c.image {
        available := false;
      } else if turn.answer.Some? {
        available := turn.answer.value;
      }
      DropEntries(turn.during);
      cache := cache[c.imageID := Entry(available, turn.stored)];
      log := log + [Stored(c.imageID, AnswerFor(c.image, turn.answer), turn.stored)];
    }

    method SweepUnused(inUse: set<string>)
      modifies this
      ensures Contents() == Sweep(old(Contents()), inUse)
    {
      ghost var was := cache;
      var todo := cache.Keys;
      while todo != {}
        invariant todo <= cache.Keys <= was.Keys && log == old(log)
        invariant forall id :: id in cache ==> cache[id] == was[id]
        invariant forall id :: id in was && id !in todo ==> (id in cache <==> id in inUse)
      {
        var id :| id in todo;
        if id !in inUse {
          cache := cache - {id};
        }
        todo := todo - {id};
      }
      log := log + [Swept(inUse)];
    }
  }

  // ---------------------------------------------------------------- what the log says of the cache

  predicate Loses(ev: Event, id: string) {
    (ev.Dropped? && ev.id == id) || (ev.Swept? && id !in ev.kept)
  }

  /** The log up to where id was last asked about. */
  function BeforeAsking(log: seq<Event>, id: string): (r: seq<Event>)
    ensures |r| <= |log|
    decreases |log|
  {
    if log == [] then []
    else
      var n := |log| - 1;
      if log[n].Asked? && log[n].id == id then log[..n] else BeforeAsking(log[..n], id)
  }

  /** The entry that the log leaves id with. */
  function Cached(log: seq<Event>, id: string): Option<Entry>
    decreases |log|
  {
    if log == [] then None
    else
      var n := |log| - 1;
      var ev := log[n];
      if Loses(ev, id) then None
      else if ev.Stored? && ev.id == id then
        Some(Entry(ValueOf(ev.answer, Available(Cached(BeforeAsking(log[..n], id), id))), ev.at))
      else Cached(log[..n], id)
  }

  /** Asking about id is followed by storing its answer. */
  predicate Open(log: seq<Event>, id: string)
    decreases |log|
  {
    log != [] &&
    (var ev := log[|log| - 1];
     if ev.Asked? && ev.id == id then true
     else if ev.Stored? && ev.id == id then false
     else Open(log[..|log| - 1], id))
  }

  ghost predicate GoodEvent(log: seq<Event>, ev: Event) {
    && (ev.Asked? ==> !Open(log, ev.id) && Due(Cached(log, ev.id), ev.at))
    && (ev.Stored? ==> Open(log, ev.id))
  }

  ghost predicate GoodLog(log: seq<Event>) {
    forall i :: 0 <= i < |log| ==> GoodEvent(log[..i], log[i])
  }

  ghost predicate Mirrors(st: State) {
    forall id :: Look(st.cache, id) == Cached(st.log, id)
  }

  ghost predicate Inv(st: State) {
    GoodLog(st.log) && Mirrors(st)
  }

  ghost predicate NoneOpen(log: seq<Event>) {
    forall id :: !Open(log, id)
  }

  lemma GoodLogGrows(log: seq<Event>, ev: Event)
    requires GoodLog(log) && GoodEvent(log, ev)
    ensures GoodLog(log + [ev])
  {
    var log' := log + [ev];
    forall i | 0 <= i < |log'| ensures GoodEvent(log'[..i], log'[i]) {
      assert log'[..i] == log[..i];
      assert log[..|log|] == log;
    }
  }

  lemma DropKeepsInv(st: State, id: string)
    requires Inv(st)
    ensures Inv(Drop(st, id))
    ensures forall i :: Open(Drop(st, id).log, i) == Open(st.log, i)
    ensures forall i :: BeforeAsking(Drop(st, id).log, i) == BeforeAsking(st.log, i)
  {
    GoodLogGrows(st.log, Event.Dropped(id));
    assert (st.log + [Event.Dropped(id)])[..|st.log|] == st.log;
  }

  lemma {:induction false} DropAllKeepsInv(st: State, ids: seq<string>)
    requires Inv(st)
    ensures Inv(DropAll(st, ids))
    ensures forall i :: Open(DropAll(st, ids).log, i) == Open(st.log, i)
    ensures forall i :: BeforeAsking(DropAll(st, ids).log, i) == BeforeAsking(st.log, i)
  {
    if ids != [] {
      DropAllKeepsInv(st, ids[..|ids| - 1]);
      DropKeepsInv(DropAll(st, ids[..|ids| - 1]), ids[|ids| - 1]);
    }
  }

  lemma CheckKeepsInv(st: State, c: Container, turn: Turn)
    requires Inv(st) && NoneOpen(st.log) && Due(Look(st.cache, c.imageID), turn.asked)
    ensures Inv(Check(st, c, turn)) && NoneOpen(Check(st, c, turn).log)
  {
    var id := c.imageID;
    var ask := st.(log := st.log + [Asked(id, turn.asked)]);
    assert ask.log[..|st.log|] == st.log;
    GoodLogGrows(st.log, Asked(id, turn.asked));
    assert Mirrors(ask) by {
      forall i ensures Look(ask.cache, i) == Cached(ask.log, i) {
        assert Look(st.cache, i) == Cached(st.log, i);
      }
    }
    DropAllKeepsInv(ask, turn.during);
    var asked := DropAll(ask, turn.during);
    assert BeforeAsking(ask.log, id) == st.log;
    var answer := AnswerFor(c.image, turn.answer);
    GoodLogGrows(asked.log, Stored(id, answer, turn.stored));
    StoreKeepsMirror(asked, id, answer, turn.stored);
    assert Available(Look(st.cache, id)) == Available(Cached(st.log, id));
    OnlyOpen(st.log, asked.log, Asked(id, turn.asked), Stored(id, answer, turn.stored));
  }

  lemma OnlyOpen(log: seq<Event>, asked: seq<Event>, ask: Event, store: Event)
    requires NoneOpen(log) && ask.Asked? && store.Stored? && ask.id == store.id
    requires forall i :: Open(asked, i) == Open(log + [ask], i)
    ensures NoneOpen(asked + [store])
  {
    assert (log + [ask])[..|log|] == log && (asked + [store])[..|asked|] == asked;
    forall i ensures !Open(asked + [store], i) {
      assert Open(asked, i) == Open(log + [ask], i) && !Open(log, i);
      if i != store.id {
        assert Open(asked + [store], i) == Open(asked, i) && Open(log + [ask], i) == Open(log, i);
      }
    }
  }

  lemma StoreKeepsMirror(st: State, id: string, answer: Answer, at: int)
    requires Mirrors(st)
    ensures Mirrors(Store(st, id, answer, Available(Cached(BeforeAsking(st.log, id), id)), at))
  {
    var st' := Store(st, id, answer, Available(Cached(BeforeAsking(st.log, id), id)), at);
    assert st'.log[..|st.log|] == st.log;
    forall i ensures Look(st'.cache, i) == Cached(st'.log, i) {
      assert Look(st.cache, i) == Cached(st.log, i);
    }
  }

  lemma {:induction false} RoundsKeepInv(st: State, containers: seq<Container>, turns: seq<Turn>)
    requires |containers| == |turns| && Inv(st) && NoneOpen(st.log)
    ensures Inv(Rounds(st, containers, turns)) && NoneOpen(Rounds(st, containers, turns).log)
    decreases |containers|
  {
    if containers != [] {
      var n := |containers| - 1;
      RoundsKeepInv(st, containers[..n], turns[..n]);
      var before := Rounds(st, containers[..n], turns[..n]);
      DropAllKeepsInv(before, turns[n].before);
      var st' := DropAll(before, turns[n].before);
      DropAllKeepsInv(st', turns[n].during);
      if Due(Look(st'.cache, containers[n].imageID), turns[n].asked) {
        CheckKeepsInv(st', containers[n], turns[n]);
      }
    }
  }

  lemma SweepKeepsInv(st: State, inUse: set<string>)
    requires Inv(st) && NoneOpen(st.log)
    ensures Inv(Sweep(st, inUse)) && NoneOpen(Sweep(st, inUse).log)
  {
    GoodLogGrows(st.log, Swept(inUse));
    assert (st.log + [Swept(inUse)])[..|st.log|] == st.log;
    forall i ensures Look(Sweep(st, inUse).cache, i) == Cached(st.log + [Swept(inUse)], i) {
      assert Look(st.cache, i) == Cached(st.log, i);
    }
  }

  /** Every pass, whatever is dropped meanwhile, keeps the cache true to its history. */
  lemma PassKeepsInv(st: State, containers: seq<Container>, turns: seq<Turn>, last: seq<string>)
    requires |containers| == |turns| && Inv(st) && NoneOpen(st.log)
    ensures Inv(Pass(st, containers, turns, last)) && NoneOpen(Pass(st, containers, turns, last).log)
  {
    RoundsKeepInv(st, containers, turns);
    DropAllKeepsInv(Rounds(st, containers, turns), last);
    SweepKeepsInv(DropAll(Rounds(st, containers, turns), last), InUse(containers));
  }

  // A pass, with what else happens while it runs.
  datatype Work = Work(containers: seq<Container>, turns: seq<Turn>, last: seq<string>)

  predicate ValidWork(works: seq<Work>) {
    forall i :: 0 <= i < |works| ==> |works[i].containers| == |works[i].turns|
  }

  function Run(works: seq<Work>): State
    requires ValidWork(works)
  {
    if works == [] then State(map[], [])
    else
      var n := |works| - 1;
      Pass(Run(works[..n]), works[n].containers, works[n].turns, works[n].last)
  }

  lemma {:induction false} RunKeepsInv(works: seq<Work>)
    requires ValidWork(works)
    ensures Inv(Run(works)) && NoneOpen(Run(works).log)
    decreases |works|
  {
    if works != [] {
      var n := |works| - 1;
      RunKeepsInv(works[..n]);
      PassKeepsInv(Run(works[..n]), works[n].containers, works[n].turns, works[n].last);
    }
  }

  // ---------------------------------------------------------------- which images are cached

  predicate Undropped(id: string, turns: seq<Turn>, last: seq<string>) {
    id !in last && forall i :: 0 <= i < |turns| ==> id !in turns[i].before && id !in turns[i].during
  }

  lemma {:induction false} DropAllCache(st: State, ids: seq<string>, id: string)
    ensures id in DropAll(st, ids).cache <==> id in st.cache && id !in ids
    ensures id in DropAll(st, ids).cache ==> DropAll(st, ids).cache[id] == st.cache[id]
  {
    if ids != [] {
      var n := |ids| - 1;
      DropAllCache(st, ids[..n], id);
      assert ids == ids[..n] + [ids[n]];
    }
  }

  lemma {:induction false} RoundsCache(st: State, containers: seq<Container>, turns: seq<Turn>, id: string)
    requires |containers| == |turns| && id in InUse(containers) && Undropped(id, turns, [])
    ensures id in Rounds(st, containers, turns).cache
    decreases |containers|
  {
    var n := |containers| - 1;
    var c, turn := containers[n], turns[n];
    assert containers == containers[..n] + [c];
    var before := Rounds(st, containers[..n], turns[..n]);
    var dropped := DropAll(before, turn.before);
    if id in InUse(containers[..n]) {
      RoundsCache(st, containers[..n], turns[..n], id);
    }
    DropAllCache(before, turn.before, id);
    DropAllCache(dropped.(log := dropped.log + [Asked(c.imageID, turn.asked)]), turn.during, id);
    DropAllCache(dropped, turn.during, id);
  }

  /** After a pass only images in use are cached, and all of them but those dropped meanwhile. */
  lemma CachedIffInUse(st: State, containers: seq<Container>, turns: seq<Turn>, last: seq<string>, id: string)
    requires |containers| == |turns|
    ensures id in Pass(st, containers, turns, last).cache ==> id in InUse(containers)
    ensures Undropped(id, turns, last) ==>
      (id in Pass(st, containers, turns, last).cache <==> id in InUse(containers))
  {
    if Undropped(id, turns, last) && id in InUse(containers) {
      RoundsCache(st, containers, turns, id);
      DropAllCache(Rounds(st, containers, turns), last, id);
    }
  }

  // ---------------------------------------------------------------- how often an image is checked

  function TimesAsked(log: seq<Event>, id: string): nat
    decreases |log|
  {
    if log == [] then 0
    else
      var ev := log[|log| - 1];
      TimesAsked(log[..|log| - 1], id) + if ev.Asked? && ev.id == id then 1 else 0
  }

  lemma TimesAskedGrows(log: seq<Event>, ev: Event, id: string)
    ensures TimesAsked(log + [ev], id) == TimesAsked(log, id) + if ev.Asked? && ev.id == id then 1 else 0
  {
    assert (log + [ev])[..|log|] == log;
  }

  lemma {:induction false} DropAllAsksNothing(st: State, ids: seq<string>, id: string)
    ensures TimesAsked(DropAll(st, ids).log, id) == TimesAsked(st.log, id)
  {
    if ids != [] {
      var before := DropAll(st, ids[..|ids| - 1]);
      DropAllAsksNothing(st, ids[..|ids| - 1], id);
      TimesAskedGrows(before.log, Event.Dropped(ids[|ids| - 1]), id);
    }
  }

  lemma {:induction false} RoundsAsk(st: State, containers: seq<Container>, turns: seq<Turn>, id: string)
    requires |containers| == |turns|
    ensures TimesAsked(Rounds(st, containers, turns).log, id)
      <= TimesAsked(st.log, id) + if id in InUse(containers) then 1 else 0
    decreases |containers|
  {
    if containers != [] {
      var n := |containers| - 1;
      var c, turn := containers[n], turns[n];
      assert containers == containers[..n] + [c];
      RoundsAsk(st, containers[..n], turns[..n], id);
      var before := Rounds(st, containers[..n], turns[..n]);
      DropAllAsksNothing(before, turn.before, id);
      var dropped := DropAll(before, turn.before);
      var asked := dropped.(log := dropped.log + [Asked(c.imageID, turn.asked)]);
      TimesAskedGrows(dropped.log, Asked(c.imageID, turn.asked), id);
      DropAllAsksNothing(asked, turn.during, id);
      DropAllAsksNothing(dropped, turn.during, id);
      TimesAskedGrows(DropAll(asked, turn.during).log,
        Stored(c.imageID, AnswerFor(c.image, turn.answer), turn.stored), id);
    }
  }

  /** One pass asks about an image at most once, and only if it is in use. */
  lemma AskedOncePerPass(st: State, containers: seq<Container>, turns: seq<Turn>, last: seq<string>, id: string)
    requires |containers| == |turns|
    ensures TimesAsked(Pass(st, containers, turns, last).log, id)
      <= TimesAsked(st.log, id) + if id in InUse(containers) then 1 else 0
  {
    RoundsAsk(st, containers, turns, id);
    var rounds := Rounds(st, containers, turns);
    DropAllAsksNothing(rounds, last, id);
    TimesAskedGrows(DropAll(rounds, last).log, Swept(InUse(containers)), id);
  }

  /** Nothing about id happens to the cache from position i on. */
  ghost predicate Untouched(log: seq<Event>, i: nat, id: string) {
    forall k :: i <= k < |log| ==> !Loses(log[k], id) && !(log[k].Stored? && log[k].id == id)
  }

  lemma {:induction false} StillCached(log: seq<Event>, i: nat, id: string)
    requires i < |log| && log[i].Stored? && log[i].id == id && Untouched(log, i + 1, id)
    ensures Cached(log, id).Some? && Cached(log, id).value.checkedAt == log[i].at
    decreases |log|
  {
    if i < |log| - 1 {
      StillCached(log[..|log| - 1], i, id);
    }
  }

  /** In the whole history, an image is asked about again only once UPDATE_CHECK_INTERVAL has
      passed since its last result, unless its entry was dropped or it went out of use. */
  lemma AskedAgain(works: seq<Work>, i: nat, j: nat, id: string)
    requires ValidWork(works)
    requires var log := Run(works).log;
      && i < j < |log| && log[i].Stored? && log[i].id == id && log[j].Asked? && log[j].id == id
      && Untouched(log[..j], i + 1, id)
    ensures Run(works).log[j].at >= Run(works).log[i].at + UPDATE_CHECK_INTERVAL
  {
    RunKeepsInv(works);
    var log := Run(works).log;
    assert GoodEvent(log[..j], log[j]);
    StillCached(log[..j], i, id);
  }

  // ---------------------------------------------------------------- what a cached value says

  /** The last answer that settled id's status; false before the first. */
  function LastAnswer(events: seq<Event>, id: string): bool
    decreases |events|
  {
    if events == [] then false
    else
      var n := |events| - 1;
      var ev := events[n];
      if ev.Stored? && ev.id == id && !ev.answer.Failed? then ValueOf(ev.answer, false)
      else LastAnswer(events[..n], id)
  }

  // From position i on the entry is not lost, and no check is under way at i.
  ghost predicate Kept(log: seq<Event>, i: nat, id: string) {
    && i <= |log| && Cached(log[..i], id) == None && !Open(log[..i], id)
    && forall k :: i <= k < |log| ==> !Loses(log[k], id)
  }

  lemma KeptShorter(log: seq<Event>, i: nat, n: nat, id: string)
    requires Kept(log, i, id) && i <= n <= |log|
    ensures Kept(log[..n], i, id)
  {
    assert log[..n][..i] == log[..i];
  }

  lemma GoodLogShorter(log: seq<Event>, n: nat)
    requires GoodLog(log) && n <= |log|
    ensures GoodLog(log[..n])
  {
    forall i | 0 <= i < n ensures GoodEvent(log[..n][..i], log[..n][i]) {
      assert log[..n][..i] == log[..i];
    }
  }

  /** While a check is under way nothing was stored since it began. */
  lemma {:induction false} SinceAsking(log: seq<Event>, i: nat, id: string)
    requires Kept(log, i, id) && Open(log, id)
    ensures |BeforeAsking(log, id)| >= i && BeforeAsking(log, id) == log[..|BeforeAsking(log, id)|]
    ensures LastAnswer(log[i..], id) == LastAnswer(BeforeAsking(log, id)[i..], id)
    decreases |log|
  {
    var n := |log| - 1;
    assert log[..|log|] == log;
    assert log[i..][..n - i] == log[..n][i..];
    if !(log[n].Asked? && log[n].id == id) {
      KeptShorter(log, i, n, id);
      SinceAsking(log[..n], i, id);
    }
  }

  lemma CachedStep(log: seq<Event>, id: string)
    requires log != [] && !Loses(log[|log| - 1], id)
    ensures var n := |log| - 1;
      Available(Cached(log, id)) ==
        if log[n].Stored? && log[n].id == id then
          ValueOf(log[n].answer, Available(Cached(BeforeAsking(log[..n], id), id)))
        else Available(Cached(log[..n], id))
  {
  }

  lemma LastAnswerStep(log: seq<Event>, i: nat, id: string)
    requires i < |log|
    ensures var n := |log| - 1;
      LastAnswer(log[i..], id) ==
        if log[n].Stored? && log[n].id == id then ValueOf(log[n].answer, LastAnswer(log[..n][i..], id))
        else LastAnswer(log[..n][i..], id)
  {
    var n := |log| - 1;
    assert log[i..][..n - i] == log[..n][i..];
  }

  /** A cached value is the last successful check's since the entry was last lost: false if there
      was none, or if the image then was a bare ID. */
  lemma {:induction false} CachedValue(log: seq<Event>, i: nat, id: string)
    requires GoodLog(log) && Kept(log, i, id)
    ensures Available(Cached(log, id)) == LastAnswer(log[i..], id)
    decreases |log|
  {
    if |log| == i {
      assert log[..i] == log;
    } else {
      var n := |log| - 1;
      assert !Loses(log[n], id) && GoodEvent(log[..n], log[n]);
      assert log[n].Stored? && log[n].id == id ==> Open(log[..n], id);
      KeptShorter(log, i, n, id);
      GoodLogShorter(log, n);
      CachedStep(log, id);
      LastAnswerStep(log, i, id);
      hide Kept, GoodLog, GoodEvent, Open, BeforeAsking, Loses, Cached, LastAnswer;
      if log[n].Stored? && log[n].id == id {
        SinceAsking(log[..n], i, id);
        var asked := BeforeAsking(log[..n], id);
        KeptShorter(log[..n], i, |asked|, id);
        GoodLogShorter(log[..n], |asked|);
        CachedValue(asked, i, id);
      } else {
        CachedValue(log[..n], i, id);
      }
    }
  }

  /** What the dashboard is told of an image in use: the last successful check's result. */
  lemma AvailableIsLastAnswer(works: seq<Work>, i: nat, id: string)
    requires ValidWork(works) && Kept(Run(works).log, i, id)
    ensures Available(Look(Run(works).cache, id)) == LastAnswer(Run(works).log[i..], id)
  {
    RunKeepsInv(works);
    CachedValue(Run(works).log, i, id);
  }

  // ---------------------------------------------------------------- drops during a check

  /** A check of id that was under way at position k stored its answer later. */
  ghost predicate CheckSpans(log: seq<Event>, k: nat, id: string)
    requires k < |log|
  {
    Open(log[..k], id) && exists b :: k < b < |log| && log[b].Stored? && log[b].id == id
  }

  /** The check that stored at position i found an update, every check of id that stored since then
      failed, and the entry was lost since then only while such a check was under way. */
  ghost predicate FoundAt(log: seq<Event>, i: nat, id: string) {
    && i < |log| && log[i].Stored? && log[i].id == id && log[i].answer == Answered(true)
    && forall k :: i < k < |log| ==>
         && (log[k].Stored? && log[k].id == id ==> log[k].answer.Failed?)
         && (Loses(log[k], id) ==> CheckSpans(log, k, id))
  }

  lemma {:induction false} ClosedBy(log: seq<Event>, k: nat, m: nat, id: string) returns (b: nat)
    requires k < m <= |log| && Open(log[..k], id) && !Open(log[..m], id) && Loses(log[k], id)
    ensures k < b < m && log[b].Stored? && log[b].id == id
    decreases m
  {
    b := m - 1;
    assert log[..m][..b] == log[..b];
    if !(log[b].Stored? && log[b].id == id) {
      assert !Open(log[..b], id);
      b := ClosedBy(log, k, m - 1, id);
    }
  }

  predicate About(ev: Event, id: string) {
    (ev.Asked? || ev.Stored?) && ev.id == id
  }

  /** While a check is under way, the last thing done about id was asking. */
  lemma {:induction false} LastAsked(log: seq<Event>, id: string)
    requires Open(log, id)
    ensures var m := |BeforeAsking(log, id)|;
      && m < |log| && log[m].Asked? && log[m].id == id && BeforeAsking(log, id) == log[..m]
      && forall k :: m < k < |log| ==> !About(log[k], id)
    decreases |log|
  {
    var n := |log| - 1;
    if !About(log[n], id) {
      LastAsked(log[..n], id);
      var m := |BeforeAsking(log, id)|;
      assert log[..n][..m] == log[..m];
      forall k | m < k < |log| ensures !About(log[k], id) {
        if k < n { assert !About(log[..n][k], id); }
      }
    }
  }

  lemma {:induction false} StillOpen(log: seq<Event>, m: nat, k: nat, id: string)
    requires m < k <= |log| && log[m].Asked? && log[m].id == id && forall j :: m < j < k ==> !About(log[j], id)
    ensures Open(log[..k], id)
    decreases k
  {
    assert log[..k][..k - 1] == log[..k - 1];
    if k > m + 1 {
      assert !About(log[k - 1], id);
      StillOpen(log, m, k - 1, id);
    }
  }

  /** An event that neither loses the entry nor stores anything for it changes nothing. */
  lemma IrrelevantEvent(log: seq<Event>, i: nat, id: string)
    requires log != [] && !Loses(log[|log| - 1], id) && !(log[|log| - 1].Stored? && log[|log| - 1].id == id)
    ensures FoundAt(log, i, id) <==> FoundAt(log[..|log| - 1], i, id)
  {
    var n := |log| - 1;
    forall k | 0 <= k < n ensures CheckSpans(log, k, id) <==> CheckSpans(log[..n], k, id) {
      assert log[..n][..k] == log[..k];
      if CheckSpans(log, k, id) {
        var b :| k < b < |log| && log[b].Stored? && log[b].id == id;
        assert log[..n][b].Stored?;
      }
    }
    hide CheckSpans;
  }

  /** A check that was under way before position m, where none was, ended before it. */
  lemma SpansEarlier(log: seq<Event>, m: nat, k: nat, id: string)
    requires k < m <= |log| && Loses(log[k], id) && !Open(log[..m], id)
    ensures CheckSpans(log, k, id) <==> CheckSpans(log[..m], k, id)
  {
    assert log[..m][..k] == log[..k];
    if CheckSpans(log, k, id) {
      var b := ClosedBy(log, k, m, id);
      assert log[..m][b].Stored?;
    }
    if CheckSpans(log[..m], k, id) {
      var b :| k < b < m && log[..m][b].Stored? && log[..m][b].id == id;
      assert log[b].Stored?;
    }
  }

  /** After a failed check what was true before it was asked for is true again. */
  lemma FailedCheck(log: seq<Event>, m: nat, i: nat, id: string)
    requires GoodLog(log) && m < |log| - 1 && log[m].Asked? && log[m].id == id
    requires log[|log| - 1].Stored? && log[|log| - 1].id == id && log[|log| - 1].answer.Failed?
    requires forall k :: m < k < |log| - 1 ==> !About(log[k], id)
    ensures FoundAt(log, i, id) <==> FoundAt(log[..m], i, id)
  {
    var n := |log| - 1;
    assert GoodEvent(log[..m], log[m]);
    hide GoodLog, GoodEvent;
    forall k | 0 <= k < m && Loses(log[k], id) ensures CheckSpans(log, k, id) <==> CheckSpans(log[..m], k, id) {
      SpansEarlier(log, m, k, id);
    }
    forall k | m < k < n ensures CheckSpans(log, k, id) {
      StillOpen(log, m, k, id);
      assert log[n].Stored?;
    }
    hide CheckSpans, GoodLog, GoodEvent;
    if FoundAt(log, i, id) {
      assert About(log[i], id) && i < m;
    }
  }

  /** What the dashboard is told, with nothing assumed about drops: an update is available exactly
      if some check found one and none since settled otherwise, where an entry dropped during a
      check that fails is brought back with the value read before. */
  lemma {:induction false} FoundExactly(log: seq<Event>, id: string)
    requires GoodLog(log)
    ensures Available(Cached(log, id)) <==> exists i: nat :: FoundAt(log, i, id)
    decreases |log|
  {
    if log != [] {
      var n := |log| - 1;
      var ev := log[n];
      GoodLogShorter(log, n);
      assert GoodEvent(log[..n], ev);
      if Loses(ev, id) {
        assert forall i: nat :: FoundAt(log, i, id) ==> CheckSpans(log, n, id);
        assert !CheckSpans(log, n, id);
      } else if !(ev.Stored? && ev.id == id) {
        FoundExactly(log[..n], id);
        forall i: nat ensures FoundAt(log, i, id) <==> FoundAt(log[..n], i, id) {
          IrrelevantEvent(log, i, id);
        }
      } else if ev.answer.Failed? {
        LastAsked(log[..n], id);
        var m := |BeforeAsking(log[..n], id)|;
        assert log[..n][..m] == log[..m];
        forall k | m < k < n ensures !About(log[k], id) {
          assert !About(log[..n][k], id);
        }
        GoodLogShorter(log, m);
        FoundExactly(log[..m], id);
        CachedStep(log, id);
        forall i: nat ensures FoundAt(log, i, id) <==> FoundAt(log[..m], i, id) {
          FailedCheck(log, m, i, id);
        }
      } else {
        assert forall i: nat :: FoundAt(log, i, id) ==> i == n;
        assert ev.answer == Answered(true) ==> FoundAt(log, n, id);
      }
    }
  }

  lemma AvailableExactly(works: seq<Work>, id: string)
    requires ValidWork(works)
    ensures Available(Look(Run(works).cache, id)) <==> exists i: nat :: FoundAt(Run(works).log, i, id)
  {
    RunKeepsInv(works);
    FoundExactly(Run(works).log, id);
  }

  // An image found to have an update; later its entry is dropped during a check, which fails.
  function DroppedDuring(): seq<Work> {
    var c := Container("i", "image");
    [Work([c], [Turn([], 0, [], Some(true), 0)], []),
     Work([c], [Turn([], UPDATE_CHECK_INTERVAL, ["i"], None, UPDATE_CHECK_INTERVAL)], [])]
  }

  /** The dropped value comes back, though no check since the drop found an update. */
  lemma DroppedValueRevived()
    ensures var st := Run(DroppedDuring());
      && Available(Look(st.cache, "i"))
      && |st.log| == 7 && st.log[4] == Event.Dropped("i") && !LastAnswer(st.log[4..], "i")
  {
    var works := DroppedDuring();
    assert works[..1][..0] == [] && works[..1][0] == works[0] && works[..1][|works[..1]| - 1] == works[0];
    FirstPass();
    assert Run(works[..1]) == FOUND;
    SecondPass();
    assert Run(works) == REVIVED;
    var tail := REVIVED.log[4..];
    assert tail == [Event.Dropped("i"), Stored("i", Failed, UPDATE_CHECK_INTERVAL), Swept({"i"})];
    assert tail[..2] == [Event.Dropped("i"), Stored("i", Failed, UPDATE_CHECK_INTERVAL)];
    assert tail[..2][..1] == [Event.Dropped("i")] && [Event.Dropped("i")][..0] == [];
    assert !LastAnswer([Event.Dropped("i")], "i") && !LastAnswer(tail[..2], "i");
  }

  const FOUND := State(map["i" := Entry(true, 0)], [Asked("i", 0), Stored("i", Answered(true), 0), Swept({"i"})])

  const REVIVED := State(map["i" := Entry(true, UPDATE_CHECK_INTERVAL)],
    FOUND.log + [Asked("i", UPDATE_CHECK_INTERVAL), Event.Dropped("i"), Stored("i", Failed, UPDATE_CHECK_INTERVAL), Swept({"i"})])

  lemma FirstPass()
    ensures Pass(State(map[], []), [Container("i", "image")], [Turn([], 0, [], Some(true), 0)], []) == FOUND
  {
    var c, turn := Container("i", "image"), Turn([], 0, [], Some(true), 0);
    assert InUse([c]) == {"i"} && !IsBare(c.image);
    OnePass(State(map[], []), c, turn);
  }

  lemma SecondPass()
    ensures var later := UPDATE_CHECK_INTERVAL;
      Pass(FOUND, [Container("i", "image")], [Turn([], later, ["i"], None, later)], []) == REVIVED
  {
    var later := UPDATE_CHECK_INTERVAL;
    var c, turn := Container("i", "image"), Turn([], later, ["i"], None, later);
    assert InUse([c]) == {"i"} && !IsBare(c.image);
    OnePass(FOUND, c, turn);
    var asked := FOUND.(log := FOUND.log + [Asked("i", later)]);
    assert ["i"][..0] == [] && DropAll(asked, ["i"]) == Drop(asked, "i");
    assert Drop(asked, "i").cache == map[];
    assert Round(FOUND, {}, c, turn)
        == State(map["i" := Entry(true, later)],
                 FOUND.log + [Asked("i", later)] + [Event.Dropped("i")] + [Stored("i", Failed, later)]);
  }

  lemma OnePass(st: State, c: Container, turn: Turn)
    ensures Pass(st, [c], [turn], []) == Sweep(Round(st, {}, c, turn), InUse([c]))
  {
    assert Rounds(st, [c], [turn]) == Round(Rounds(st, [c][..0], [turn][..0]), InUse([c][..0]), c, turn);
    assert [c][..0] == [] && InUse([]) == {};
  }

  // ---------------------------------------------------------------- what a pass does to one image

  predicate Drops(turn: Turn, id: string) {
    id in turn.before || id in turn.during
  }

  /** A round for other images can only drop the entry. */
  lemma OtherRound(st: State, inUse: set<string>, c: Container, turn: Turn, id: string)
    requires c.imageID != id || id in inUse
    ensures var after := Round(st, inUse, c, turn);
      && Look(after.cache, id) == (if Drops(turn, id) then None else Look(st.cache, id))
      && TimesAsked(after.log, id) == TimesAsked(st.log, id)
  {
    var dropped := DropAll(st, turn.before);
    DropAllCache(st, turn.before, id);
    DropAllAsksNothing(st, turn.before, id);
    DropAllCache(dropped, turn.during, id);
    DropAllAsksNothing(dropped, turn.during, id);
    if c.imageID != id {
      var asked := dropped.(log := dropped.log + [Asked(c.imageID, turn.asked)]);
      TimesAskedGrows(dropped.log, Asked(c.imageID, turn.asked), id);
      DropAllCache(asked, turn.during, id);
      DropAllAsksNothing(asked, turn.during, id);
      TimesAskedGrows(DropAll(asked, turn.during).log, Stored(c.imageID, AnswerFor(c.image, turn.answer), turn.stored), id);
    }
  }

  /** The value a check leaves: an image without a tag has no update; otherwise the registry's
      answer, or, if there was none, the value read before. */
  predicate Settles(c: Container, turn: Turn, was: bool, available: bool) {
    if c.image == "" || (|c.image| >= 7 && c.image[..7] == "sha256:") then !available
    else match turn.answer
         case Some(answer) => available == answer
         case None => available == was
  }

  /** The round for an image that is in use: it is asked about exactly if it is not cached or its
      result is five minutes old, and then its entry is the new result. */
  lemma OwnRound(st: State, inUse: set<string>, c: Container, turn: Turn)
    requires c.imageID != "" && c.imageID !in inUse
    ensures var after, id := Round(st, inUse, c, turn), c.imageID;
      var known := id in st.cache && id !in turn.before;
      var recent := known && turn.asked - st.cache[id].checkedAt < 5 * 60 * SECOND;
      && TimesAsked(after.log, id) == TimesAsked(st.log, id) + (if recent then 0 else 1)
      && (recent ==> Look(after.cache, id) == if id in turn.during then None else Some(st.cache[id]))
      && (!recent ==>
            && id in after.cache && after.cache[id].checkedAt == turn.stored
            && Settles(c, turn, known && st.cache[id].available, after.cache[id].available))
  {
    var id, dropped := c.imageID, DropAll(st, turn.before);
    DropAllCache(st, turn.before, id);
    DropAllAsksNothing(st, turn.before, id);
    DropAllCache(dropped, turn.during, id);
    DropAllAsksNothing(dropped, turn.during, id);
    var asked := dropped.(log := dropped.log + [Asked(id, turn.asked)]);
    TimesAskedGrows(dropped.log, Asked(id, turn.asked), id);
    DropAllAsksNothing(asked, turn.during, id);
    TimesAskedGrows(DropAll(asked, turn.during).log, Stored(id, AnswerFor(c.image, turn.answer), turn.stored), id);
    hide DropAll, TimesAsked;
  }

  predicate AnyDrops(turns: seq<Turn>, id: string) {
    exists j :: 0 <= j < |turns| && Drops(turns[j], id)
  }

  lemma AnyDropsStep(turns: seq<Turn>, id: string)
    requires turns != []
    ensures AnyDrops(turns, id) <==> AnyDrops(turns[..|turns| - 1], id) || Drops(turns[|turns| - 1], id)
  {
    var n := |turns| - 1;
    hide Drops;
    if AnyDrops(turns[..n], id) {
      var j :| 0 <= j < n && Drops(turns[..n][j], id);
      assert Drops(turns[j], id);
    }
    if AnyDrops(turns, id) && !Drops(turns[n], id) {
      var j :| 0 <= j < |turns| && Drops(turns[j], id);
      assert Drops(turns[..n][j], id);
    }
  }

  lemma {:induction false} RoundsBefore(st: State, containers: seq<Container>, turns: seq<Turn>, id: string)
    requires |containers| == |turns| && forall j :: 0 <= j < |containers| ==> containers[j].imageID != id
    ensures var after := Rounds(st, containers, turns);
      && Look(after.cache, id) == (if AnyDrops(turns, id) then None else Look(st.cache, id))
      && TimesAsked(after.log, id) == TimesAsked(st.log, id)
    decreases |containers|
  {
    if containers != [] {
      var n := |containers| - 1;
      var before := Rounds(st, containers[..n], turns[..n]);
      assert Rounds(st, containers, turns) == Round(before, InUse(containers[..n]), containers[n], turns[n]);
      hide Rounds, Round, TimesAsked, Drops, InUse, Look, AnyDrops;
      AnyDropsStep(turns, id);
      RoundsBefore(st, containers[..n], turns[..n], id);
      OtherRound(before, InUse(containers[..n]), containers[n], turns[n], id);
    }
  }

  lemma {:induction false} RoundsAfter(st: State, containers: seq<Container>, turns: seq<Turn>, i: nat, id: string)
    requires |containers| == |turns| && i < |containers| && containers[i].imageID == id && id != ""
    requires forall j :: i < j < |turns| ==> !Drops(turns[j], id)
    ensures var after, upTo := Rounds(st, containers, turns), Rounds(st, containers[..i + 1], turns[..i + 1]);
      && Look(after.cache, id) == Look(upTo.cache, id)
      && TimesAsked(after.log, id) == TimesAsked(upTo.log, id)
    decreases |containers|
  {
    var n := |containers| - 1;
    if i == n {
      assert containers[..i + 1] == containers && turns[..i + 1] == turns;
    } else {
      assert containers[..n][..i + 1] == containers[..i + 1] && turns[..n][..i + 1] == turns[..i + 1];
      assert containers[..n][i] in containers[..n] && id in InUse(containers[..n]);
      var before := Rounds(st, containers[..n], turns[..n]);
      assert Rounds(st, containers, turns) == Round(before, InUse(containers[..n]), containers[n], turns[n]);
      hide Rounds, Round, TimesAsked, Drops, InUse, Look;
      RoundsAfter(st, containers[..n], turns[..n], i, id);
      assert !Drops(turns[n], id);
      OtherRound(before, InUse(containers[..n]), containers[n], turns[n], id);
    }
  }

  /** What a pass does to an image, from its container's turn alone, i being the first container that
      uses it: asked about exactly if it was not cached, was dropped before its turn, or its result
      is five minutes old; and, if it is not dropped afterwards, cached with the value its tag, the
      registry's answer and the value before call for. */
  lemma PassExactly(st: State, containers: seq<Container>, turns: seq<Turn>, last: seq<string>, i: nat)
    requires |containers| == |turns| && i < |containers| && containers[i].imageID != ""
    requires forall j :: 0 <= j < i ==> containers[j].imageID != containers[i].imageID
    requires forall j :: i < j < |turns| ==> !Drops(turns[j], containers[i].imageID)
    requires containers[i].imageID !in last
    ensures var after, id := Pass(st, containers, turns, last), containers[i].imageID;
      var known := id in st.cache && id !in turns[i].before && forall j :: 0 <= j < i ==> !Drops(turns[j], id);
      var recent := known && turns[i].asked - st.cache[id].checkedAt < 5 * 60 * SECOND;
      && TimesAsked(after.log, id) == TimesAsked(st.log, id) + (if recent then 0 else 1)
      && (recent ==> Look(after.cache, id) == if id in turns[i].during then None else Some(st.cache[id]))
      && (!recent ==>
            && id in after.cache && after.cache[id].checkedAt == turns[i].stored
            && Settles(containers[i], turns[i], known && st.cache[id].available, after.cache[id].available))
  {
    var id := containers[i].imageID;
    var before, rounds := Rounds(st, containers[..i], turns[..i]), Rounds(st, containers, turns);
    RoundsBefore(st, containers[..i], turns[..i], id);
    DroppedBefore(turns, i, id);
    NotYetInUse(containers[..i], id);
    OwnRound(before, InUse(containers[..i]), containers[i], turns[i]);
    RoundsStep(st, containers, turns, i);
    RoundsAfter(st, containers, turns, i, id);
    EndOfPass(st, containers, turns, last, i);
    hide Rounds, Round, Pass, Drops, AnyDrops, Settles, InUse, TimesAsked;
  }

  lemma DroppedBefore(turns: seq<Turn>, i: nat, id: string)
    requires i <= |turns|
    ensures AnyDrops(turns[..i], id) <==> !(forall j :: 0 <= j < i ==> !Drops(turns[j], id))
  {
    hide Drops;
    if exists j :: 0 <= j < i && Drops(turns[j], id) {
      var j :| 0 <= j < i && Drops(turns[j], id);
      assert Drops(turns[..i][j], id);
    }
  }

  lemma NotYetInUse(containers: seq<Container>, id: string)
    requires forall j :: 0 <= j < |containers| ==> containers[j].imageID != id
    ensures id !in InUse(containers)
  {
  }

  lemma EndOfPass(st: State, containers: seq<Container>, turns: seq<Turn>, last: seq<string>, i: nat)
    requires |containers| == |turns| && i < |containers| && containers[i].imageID != "" && containers[i].imageID !in last
    ensures var after, rounds, id := Pass(st, containers, turns, last), Rounds(st, containers, turns), containers[i].imageID;
      Look(after.cache, id) == Look(rounds.cache, id) && TimesAsked(after.log, id) == TimesAsked(rounds.log, id)
  {
    var rounds, id := Rounds(st, containers, turns), containers[i].imageID;
    DropAllCache(rounds, last, id);
    DropAllAsksNothing(rounds, last, id);
    TimesAskedGrows(DropAll(rounds, last).log, Swept(InUse(containers)), id);
    assert containers[i] in containers;
  }

  // ---------------------------------------------------------------- where answers come from

  /** The result was stored for a container of the pass that has a tag, with the registry's answer. */
  ghost predicate AnsweredTo(containers: seq<Container>, turns: seq<Turn>, ev: Event)
    requires |containers| == |turns|
  {
    ev.Stored? && ev.answer.Answered? ==>
      exists i: nat :: i < |containers| && containers[i].imageID == ev.id && turns[i].stored == ev.at
        && containers[i].image != "" && !(|containers[i].image| >= 7 && containers[i].image[..7] == "sha256:")
        && turns[i].answer == Some(ev.answer.available)
  }

  lemma {:induction false} DropAllLog(st: State, ids: seq<string>, ev: Event)
    requires ev in DropAll(st, ids).log && !ev.Dropped?
    ensures ev in st.log
  {
    if ids != [] {
      DropAllLog(st, ids[..|ids| - 1], ev);
    }
  }

  lemma RoundLog(st: State, inUse: set<string>, c: Container, turn: Turn, ev: Event)
    requires ev in Round(st, inUse, c, turn).log && ev.Stored?
    ensures ev in st.log || ev == Stored(c.imageID, AnswerFor(c.image, turn.answer), turn.stored)
  {
    var dropped := DropAll(st, turn.before);
    var asked := dropped.(log := dropped.log + [Asked(c.imageID, turn.asked)]);
    if ev in DropAll(asked, turn.during).log {
      DropAllLog(asked, turn.during, ev);
    }
    if ev in DropAll(dropped, turn.during).log {
      DropAllLog(dropped, turn.during, ev);
    }
    if ev in dropped.log {
      DropAllLog(st, turn.before, ev);
    }
  }

  lemma {:induction false} RoundsLog(st: State, containers: seq<Container>, turns: seq<Turn>, ev: Event)
    requires |containers| == |turns| && ev in Rounds(st, containers, turns).log && ev.Stored?
    ensures ev in st.log || AnsweredTo(containers, turns, ev)
    decreases |containers|
  {
    if containers != [] {
      var n := |containers| - 1;
      var before := Rounds(st, containers[..n], turns[..n]);
      RoundLog(before, InUse(containers[..n]), containers[n], turns[n], ev);
      if ev in before.log {
        RoundsLog(st, containers[..n], turns[..n], ev);
        if ev !in st.log && ev.answer.Answered? {
          var i: nat :| i < n && containers[..n][i].imageID == ev.id && turns[..n][i].stored == ev.at
            && containers[..n][i].image != ""
            && !(|containers[..n][i].image| >= 7 && containers[..n][i].image[..7] == "sha256:")
            && turns[..n][i].answer == Some(ev.answer.available);
          assert containers[i].imageID == ev.id;
        }
      } else {
        assert ev.answer.Answered? ==> containers[n].imageID == ev.id;
      }
    }
  }

  /** Over all runs, no answer is made up: each is what the registry said of a tagged image in use. */
  lemma {:induction false} AnswersAreTheRegistrys(works: seq<Work>, ev: Event)
    requires ValidWork(works) && ev in Run(works).log && ev.Stored?
    ensures exists w: nat :: w < |works| && AnsweredTo(works[w].containers, works[w].turns, ev)
    decreases |works|
  {
    var n := |works| - 1;
    var before, w := Run(works[..n]), works[n];
    var rounds := Rounds(before, w.containers, w.turns);
    DropAllLog(rounds, w.last, ev);
    RoundsLog(before, w.containers, w.turns, ev);
    if ev in before.log {
      AnswersAreTheRegistrys(works[..n], ev);
      var v: nat :| v < n && AnsweredTo(works[..n][v].containers, works[..n][v].turns, ev);
      assert AnsweredTo(works[v].containers, works[v].turns, ev);
    }
  }
}
