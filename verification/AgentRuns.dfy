/** What the ID-keyed table of agents means over whole runs: a book with one page per address. */
module AgentRuns {
  import opened Base
  import opened AgentTable

  type Book = map<string, Record>

  datatype Event =
    | Add(addr: string, title: string)
    | Poll(addr: string, stats: Stats, at: int)
    | Offline(addr: string, err: string)
    | Remove(id: string)

  ghost function ByAddr(t: Table): (b: Book)
    requires WellFormed(t)
    ensures forall id :: id in t ==> t[id].addr in b && b[t[id].addr] == t[id]
    ensures forall a :: a in b ==> exists id :: id in t && t[id].addr == a && b[a] == t[id]
  {
    map a | a in (set id | id in t :: t[id].addr) && KeyOf(t, a).Some? :: t[KeyOf(t, a).value]
  }

  ghost function Step(t: Table, ev: Event): Table {
    match ev
    case Add(addr, title) => Added(t, addr, title)
    case Poll(addr, stats, at) => Polled(t, addr, stats, at)
    case Offline(addr, err) => Marked(t, addr, err)
    case Remove(id) => t - {id}
  }

  /** The same operation where nothing but the address identifies an agent. */
  function Turned(b: Book, ev: Event): Book {
    match ev
    case Add(addr, title) => b[addr := if addr in b then Labelled(b[addr], title) else NewRecord(addr, title)]
    case Poll(addr, stats, at) => if addr in b then b[addr := Seen(b[addr], stats, at)] else b
    case Offline(addr, err) => if addr in b then b[addr := b[addr].(online := false, err := err)] else b
    case Remove(id) => map a | a in b && b[a].id != id :: b[a]
  }

  /** The operation files its agent under a key that another agent holds. */
  ghost predicate Collides(t: Table, ev: Event) {
    match ev
    case Add(addr, _) => KeyOf(t, addr).None? && addr in t
    case Poll(addr, stats, _) =>
      KeyOf(t, addr).Some? && stats.agent.id in t && stats.agent.id != KeyOf(t, addr).value
    case _ => false
  }

  lemma StepWellFormed(t: Table, ev: Event)
    requires WellFormed(t)
    ensures WellFormed(Step(t, ev))
  {
    match ev
    case Add(addr, title) => AddedWellFormed(t, addr, title);
    case Poll(addr, stats, at) => PolledWellFormed(t, addr, stats, at);
    case Offline(addr, err) => MarkedWellFormed(t, addr, err);
    case Remove(id) =>
  }

  lemma KeyOfBook(t: Table, addr: string)
    requires WellFormed(t)
    ensures addr in ByAddr(t) <==> KeyOf(t, addr).Some?
    ensures addr in ByAddr(t) ==> ByAddr(t)[addr] == t[KeyOf(t, addr).value]
  {
  }

  /** Tables with the same records by address have the same book. */
  lemma SameBook(t: Table, b: Book)
    requires WellFormed(t)
    requires forall id :: id in t ==> t[id].addr in b && b[t[id].addr] == t[id]
    requires forall a :: a in b ==> exists id :: id in t && t[id].addr == a
    ensures ByAddr(t) == b
  {
  }

  /** An operation loses an agent's record exactly when it collides. */
  lemma RefinesUnlessCollision(t: Table, ev: Event)
    requires WellFormed(t)
    ensures WellFormed(Step(t, ev))
    ensures ByAddr(Step(t, ev)) == Turned(ByAddr(t), ev) <==> !Collides(t, ev)
  {
    StepWellFormed(t, ev);
    match ev
    case Add(addr, title) => AddRefines(t, addr, title);
    case Poll(addr, stats, at) => PollRefines(t, addr, stats, at);
    case Offline(addr, err) => OfflineRefines(t, addr, err);
    case Remove(id) => RemoveRefines(t, id);
  }

  lemma AddRefines(t: Table, addr: string, title: string)
    requires WellFormed(t) && WellFormed(Added(t, addr, title))
    ensures ByAddr(Added(t, addr, title)) == Turned(ByAddr(t), Add(addr, title)) <==> !Collides(t, Add(addr, title))
  {
    if Collides(t, Add(addr, title)) {
      var t', lost := Added(t, addr, title), t[addr].addr;
      KeyOfBook(t, addr);
      assert lost in Turned(ByAddr(t), Add(addr, title));
      assert forall id :: id in t' && t'[id].addr == lost ==> id in t && id != addr;
    } else {
      AddRefinesSafely(t, addr, title);
    }
  }

  lemma AddRefinesSafely(t: Table, addr: string, title: string)
    requires WellFormed(t) && WellFormed(Added(t, addr, title)) && !Collides(t, Add(addr, title))
    ensures ByAddr(Added(t, addr, title)) == Turned(ByAddr(t), Add(addr, title))
  {
    var t', b' := Added(t, addr, title), Turned(ByAddr(t), Add(addr, title));
    KeyOfBook(t, addr);
    assert forall a :: a in b' ==> a == addr || a in ByAddr(t);
    hide WellFormed, KeyOf, ByAddr, Added, Turned;
    forall a | a in b' ensures exists id :: id in t' && t'[id].addr == a {
      AddKeeps(t, addr, title, a);
    }
    forall id | id in t' ensures t'[id].addr in b' && b'[t'[id].addr] == t'[id] {
      AddPage(t, addr, title, id);
    }
    SameBook(t', b');
  }

  lemma AddPage(t: Table, addr: string, title: string, id: string)
    requires WellFormed(t) && id in Added(t, addr, title)
    ensures var r, b' := Added(t, addr, title)[id], Turned(ByAddr(t), Add(addr, title));
      r.addr in b' && b'[r.addr] == r
  {
    KeyOfBook(t, addr);
    hide ByAddr;
  }

  lemma AddKeeps(t: Table, addr: string, title: string, a: string)
    requires WellFormed(t) && !Collides(t, Add(addr, title)) && (a == addr || a in ByAddr(t))
    ensures exists id :: id in Added(t, addr, title) && Added(t, addr, title)[id].addr == a
  {
    var t' := Added(t, addr, title);
    if a == addr {
      if KeyOf(t, addr).None? {
        assert t'[addr].addr == a;
      } else {
        assert t'[KeyOf(t, addr).value].addr == a;
      }
    } else {
      var id :| id in t && t[id].addr == a;
      assert t'[id].addr == a;
    }
  }

  lemma PollRefines(t: Table, addr: string, stats: Stats, at: int)
    requires WellFormed(t) && WellFormed(Polled(t, addr, stats, at))
    ensures ByAddr(Polled(t, addr, stats, at)) == Turned(ByAddr(t), Poll(addr, stats, at))
       <==> !Collides(t, Poll(addr, stats, at))
  {
    var ev := Poll(addr, stats, at);
    KeyOfBook(t, addr);
    if Collides(t, ev) {
      var t', lost := Polled(t, addr, stats, at), t[stats.agent.id].addr;
      assert lost in Turned(ByAddr(t), ev) && lost != addr;
      assert forall id :: id in t' && t'[id].addr == lost ==> id in t && id != stats.agent.id;
    } else if KeyOf(t, addr).Some? {
      PollRefinesSafely(t, addr, stats, at);
    }
  }

  lemma PollRefinesSafely(t: Table, addr: string, stats: Stats, at: int)
    requires WellFormed(t) && WellFormed(Polled(t, addr, stats, at))
    requires KeyOf(t, addr).Some? && !Collides(t, Poll(addr, stats, at))
    ensures ByAddr(Polled(t, addr, stats, at)) == Turned(ByAddr(t), Poll(addr, stats, at))
  {
    var t', b' := Polled(t, addr, stats, at), Turned(ByAddr(t), Poll(addr, stats, at));
    KeyOfBook(t, addr);
    forall a | a in b' ensures exists id :: id in t' && t'[id].addr == a {
      if a == addr {
        assert t'[stats.agent.id].addr == a;
      } else {
        var id :| id in t && t[id].addr == a;
        assert t'[id].addr == a;
      }
    }
    forall id | id in t' ensures t'[id].addr in b' && b'[t'[id].addr] == t'[id] {
      PollPage(t, addr, stats, at, id);
    }
    hide KeyOf, Polled, Turned, ByAddr, WellFormed;
    SameBook(t', b');
  }

  lemma PollPage(t: Table, addr: string, stats: Stats, at: int, id: string)
    requires WellFormed(t) && KeyOf(t, addr).Some? && id in Polled(t, addr, stats, at)
    ensures var r, b' := Polled(t, addr, stats, at)[id], Turned(ByAddr(t), Poll(addr, stats, at));
      r.addr in b' && b'[r.addr] == r
  {
    KeyOfBook(t, addr);
    hide ByAddr;
  }

  lemma OfflineRefines(t: Table, addr: string, err: string)
    requires WellFormed(t) && WellFormed(Marked(t, addr, err))
    ensures ByAddr(Marked(t, addr, err)) == Turned(ByAddr(t), Offline(addr, err))
  {
    var t', b' := Marked(t, addr, err), Turned(ByAddr(t), Offline(addr, err));
    KeyOfBook(t, addr);
    forall a | a in b' ensures exists id :: id in t' && t'[id].addr == a {
      var id :| id in t && t[id].addr == a;
      assert t'[id].addr == a;
    }
    SameBook(t', b');
  }

  lemma RemoveRefines(t: Table, id: string)
    requires WellFormed(t) && WellFormed(t - {id})
    ensures ByAddr(t - {id}) == Turned(ByAddr(t), Remove(id))
  {
    var t', b' := t - {id}, Turned(ByAddr(t), Remove(id));
    forall a | a in b' ensures exists i :: i in t' && t'[i].addr == a {
      var i :| i in t && t[i].addr == a;
      assert t'[i].addr == a;
    }
    SameBook(t', b');
  }

  // ---------------------------------------------------------------- runs

  ghost function Run(t: Table, events: seq<Event>): Table
    decreases |events|
  {
    if events == [] then t else Run(Step(t, events[0]), events[1..])
  }

  function BookOf(b: Book, events: seq<Event>): Book
    decreases |events|
  {
    if events == [] then b else BookOf(Turned(b, events[0]), events[1..])
  }

  /** Reported IDs are unique, and never the address another agent was added under. */
  ghost predicate Identified(all: set<Event>) {
    && (forall p, q :: p in all && q in all && p.Poll? && q.Poll? && p.stats.agent.id == q.stats.agent.id
          ==> p.addr == q.addr)
    && (forall p, e :: p in all && e in all && p.Poll? && e.Add? && p.stats.agent.id == e.addr ==> p.addr == e.addr)
  }

  /** Every key is its agent's address or an ID reported from there. */
  ghost predicate Owned(all: set<Event>, t: Table) {
    forall id :: id in t ==>
      && (exists e :: e in all && e.Add? && e.addr == t[id].addr)
      && (id == t[id].addr || exists p :: p in all && p.Poll? && p.addr == t[id].addr && p.stats.agent.id == id)
  }

  lemma OwnedSteps(all: set<Event>, t: Table, ev: Event)
    requires WellFormed(t) && Owned(all, t) && ev in all
    ensures Owned(all, Step(t, ev))
  {
    var t' := Step(t, ev);
    forall id | id in t'
      ensures exists e :: e in all && e.Add? && e.addr == t'[id].addr
      ensures id == t'[id].addr || exists p :: p in all && p.Poll? && p.addr == t'[id].addr && p.stats.agent.id == id
    {
      if id in t && t[id].addr == t'[id].addr {
      } else if ev.Poll? {
        assert t[KeyOf(t, ev.addr).value].addr == ev.addr;
      }
    }
  }

  lemma NoCollision(all: set<Event>, t: Table, ev: Event)
    requires WellFormed(t) && Owned(all, t) && Identified(all) && ev in all
    ensures !Collides(t, ev)
  {
    match ev
    case Add(addr, _) =>
      if addr in t {
        KeyOfIs(t, addr);
        assert t[addr].addr == addr;
      }
    case Poll(addr, stats, _) =>
      if stats.agent.id in t {
        KeyOfIs(t, stats.agent.id);
        assert t[stats.agent.id].addr == addr;
      }
    case _ =>
  }

  /** With proper identities the table is the book, whatever the agents and the user do: no
      record is ever lost, and each address keeps its own. */
  lemma {:induction false} RunRefines(all: set<Event>, t: Table, events: seq<Event>)
    requires Identified(all) && (forall ev :: ev in events ==> ev in all)
    requires WellFormed(t) && Owned(all, t)
    ensures WellFormed(Run(t, events))
    ensures ByAddr(Run(t, events)) == BookOf(ByAddr(t), events)
    decreases |events|
  {
    if events != [] {
      var ev := events[0];
      assert ev in events;
      OwnedSteps(all, t, ev);
      NoCollision(all, t, ev);
      RefinesUnlessCollision(t, ev);
      RunRefines(all, Step(t, ev), events[1..]);
    }
  }

  // ---------------------------------------------------------------- the file

  /** Only a collision makes the saved list outdated: polls do not save. */
  lemma SavedListStaysCurrent(t: Table, file: seq<Entry>, ev: Event)
    requires WellFormed(t) && Lists(file, t) && (ev.Poll? || ev.Offline?)
    ensures Lists(file, Step(t, ev)) <==> !Collides(t, ev)
  {
    if KeyOf(t, ev.addr).Some? {
      var id := KeyOf(t, ev.addr).value;
      var key := if ev.Poll? then ev.stats.agent.id else id;
      var r := Step(t, ev)[key];
      StepRefiles(t, ev);
      hide WellFormed, KeyOf, Lists, ListsExcept, Step;
      if key in t && key != id {
        Fewer(t, id, key, r);
        LengthOfList(file, t);
        LengthOfList(file, Step(t, ev));
      } else {
        Refiled(t, id, key, r, file);
      }
    }
  }

  lemma StepRefiles(t: Table, ev: Event)
    requires (ev.Poll? || ev.Offline?) && KeyOf(t, ev.addr).Some?
    ensures var id := KeyOf(t, ev.addr).value;
      var key := if ev.Poll? then ev.stats.agent.id else id;
      && key in Step(t, ev)
      && Step(t, ev) == (t - {id})[key := Step(t, ev)[key]]
      && Step(t, ev)[key].addr == t[id].addr && Step(t, ev)[key].title == t[id].title
  {
  }

  lemma LengthOfList(file: seq<Entry>, t: Table)
    ensures Lists(file, t) ==> |file| == |t|
  {
  }

  lemma Fewer(t: Table, id: string, key: string, r: Record)
    requires id in t && key in t && key != id
    ensures |(t - {id})[key := r]| < |t|
  {
    assert ((t - {id})[key := r]).Keys == t.Keys - {id};
  }

  lemma Refiled(t: Table, id: string, key: string, r: Record, file: seq<Entry>)
    requires id in t && r.addr == t[id].addr && r.title == t[id].title && (key == id || key !in t)
    requires Lists(file, t)
    ensures Lists(file, (t - {id})[key := r])
  {
    var t' := (t - {id})[key := r];
    assert t'.Keys == t.Keys - {id} + {key} && |t'.Keys| == |t.Keys|;
    forall e | e in file ensures exists i :: i in t' && e == Entry(t'[i].addr, t'[i].title) {
      var i :| i in t && e == Entry(t[i].addr, t[i].title);
      assert e == Entry(t'[if i == id then key else i].addr, t'[if i == id then key else i].title);
    }
    forall i | i in t' ensures Entry(t'[i].addr, t'[i].title) in file {
      assert Entry(t[if i == key then id else i].addr, t[if i == key then id else i].title) in file;
    }
  }

  /** Adding an agent and removing one save; files[k] is the file after k operations. */
  ghost predicate Saved(t: Table, files: seq<seq<Entry>>, events: seq<Event>)
    decreases |events|
  {
    |files| == |events| + 1 &&
    (events != [] ==>
      && (if events[0].Add? || (events[0].Remove? && events[0].id in t) then Lists(files[1], Step(t, events[0]))
          else files[1] == files[0])
      && Saved(Step(t, events[0]), files[1..], events[1..]))
  }

  /** At every moment of the run the file lists the table. */
  ghost predicate AlwaysCurrent(t: Table, files: seq<seq<Entry>>, events: seq<Event>)
    requires |files| == |events| + 1
    decreases |events|
  {
    Lists(files[0], t) && (events != [] ==> AlwaysCurrent(Step(t, events[0]), files[1..], events[1..]))
  }

  ghost predicate NoPollCollides(t: Table, events: seq<Event>)
    decreases |events|
  {
    events == [] || (!(events[0].Poll? && Collides(t, events[0])) && NoPollCollides(Step(t, events[0]), events[1..]))
  }

  /** The saved list is current at every moment of a run exactly if no poll of it collides. */
  lemma {:induction false} AlwaysCurrentExactly(t: Table, files: seq<seq<Entry>>, events: seq<Event>)
    requires WellFormed(t) && Saved(t, files, events) && Lists(files[0], t)
    ensures AlwaysCurrent(t, files, events) <==> NoPollCollides(t, events)
    decreases |events|
  {
    if events != [] {
      var ev := events[0];
      StepWellFormed(t, ev);
      hide WellFormed, KeyOf, Lists, Collides, Step;
      if ev.Poll? || ev.Offline? {
        SavedListStaysCurrent(t, files[0], ev);
        OnlyPollsCollide(t, ev);
      } else if ev.Remove? && ev.id !in t {
        NothingRemoved(t, ev.id);
      }
      if Lists(files[1], Step(t, ev)) {
        AlwaysCurrentExactly(Step(t, ev), files[1..], events[1..]);
      }
    }
  }

  lemma OnlyPollsCollide(t: Table, ev: Event)
    ensures ev.Offline? ==> !Collides(t, ev)
  {
  }

  lemma NothingRemoved(t: Table, id: string)
    requires id !in t
    ensures Step(t, Remove(id)) == t
  {
  }

  /** With proper identities no poll collides: the saved list always is the current one. */
  lemma {:induction false} SavedListIsAlwaysCurrent(all: set<Event>, t: Table, files: seq<seq<Entry>>, events: seq<Event>)
    requires Identified(all) && (forall ev :: ev in events ==> ev in all)
    requires WellFormed(t) && Owned(all, t) && Saved(t, files, events) && Lists(files[0], t)
    ensures AlwaysCurrent(t, files, events) && Lists(files[|events|], Run(t, events))
    decreases |events|
  {
    if events != [] {
      var ev, t' := events[0], Step(t, events[0]);
      assert ev in events;
      OwnedSteps(all, t, ev);
      NoCollision(all, t, ev);
      StepWellFormed(t, ev);
      hide WellFormed, KeyOf, Lists, Collides, Step, Owned, Identified;
      if ev.Poll? || ev.Offline? {
        SavedListStaysCurrent(t, files[0], ev);
      } else if ev.Remove? && ev.id !in t {
        NothingRemoved(t, ev.id);
      }
      SavedListIsAlwaysCurrent(all, t', files[1..], events[1..]);
    }
  }

  // ---------------------------------------------------------------- a collision

  function Twins(a: string, b: string, id: string): seq<Event> {
    [Add(a, ""), Add(b, ""), Poll(a, Stats(AgentInfo(id, ""), []), 0), Poll(b, Stats(AgentInfo(id, ""), []), 0)]
  }

  /** Two agents that report one ID, from a copied configuration say: the first one's record is
      gone. */
  lemma TwinsLoseARecord(a: string, b: string, id: string)
    requires a != b && id != a && id != b
    ensures BookOf(map[], Twins(a, b, id)).Keys == {a, b}
    ensures WellFormed(Run(map[], Twins(a, b, id))) && ByAddr(Run(map[], Twins(a, b, id))).Keys == {b}
    ensures !Identified(set ev | ev in Twins(a, b, id))
  {
    var events := Twins(a, b, id);
    var t: Table := map[id := Seen(NewRecord(b, ""), events[3].stats, 0)];
    TwinsInBook(a, b, id);
    TwinsInTable(a, b, id);
    assert t[id].addr == b && t[id].id == id && Run(map[], events) == t;
    assert events[2] in events && events[3] in events;
    hide Run, BookOf, KeyOf;
    assert forall x :: x in ByAddr(t) ==> x == b;
  }

  lemma TwinsInTable(a: string, b: string, id: string)
    requires a != b && id != a && id != b
    ensures Run(map[], Twins(a, b, id)) == map[id := Seen(NewRecord(b, ""), Twins(a, b, id)[3].stats, 0)]
  {
    var events := Twins(a, b, id);
    var ra, rb, stats := NewRecord(a, ""), NewRecord(b, ""), events[2].stats;
    var t1: Table := map[a := ra];
    var t2: Table := map[a := ra, b := rb];
    var t3: Table := map[b := rb, id := Seen(ra, stats, 0)];
    var t4: Table := map[id := Seen(rb, stats, 0)];
    assert KeyOf(map[], a) == None && Step(map[], events[0]) == t1;
    assert KeyOf(t1, b) == None && Step(t1, events[1]) == t2;
    assert Step(t2, events[2]) == t3 by { KeyOfIs(t2, a); }
    assert Step(t3, events[3]) == t4 by { KeyOfIs(t3, b); }
    hide Step, KeyOf;
    assert events[1..][0] == events[1] && events[1..][1..] == events[2..];
    assert events[2..][0] == events[2] && events[2..][1..] == events[3..];
    assert events[3..][0] == events[3] && events[3..][1..] == [];
    assert Run(t3, events[3..]) == Run(t4, []) == t4;
    assert Run(t2, events[2..]) == t4;
    assert Run(t1, events[1..]) == t4;
  }

  lemma TwinsInBook(a: string, b: string, id: string)
    requires a != b
    ensures BookOf(map[], Twins(a, b, id)).Keys == {a, b}
  {
    var events := Twins(a, b, id);
    var b1 := Turned(map[], events[0]);
    var b2 := Turned(b1, events[1]);
    var b3 := Turned(b2, events[2]);
    var b4 := Turned(b3, events[3]);
    assert b1.Keys == {a} && b2.Keys == {a, b} && b3.Keys == {a, b} && b4.Keys == {a, b};
    assert events[1..][0] == events[1] && events[1..][1..] == events[2..];
    assert events[2..][0] == events[2] && events[2..][1..] == events[3..];
    assert events[3..][0] == events[3] && events[3..][1..] == [];
    hide Turned;
    assert BookOf(b3, events[3..]) == BookOf(b4, []) == b4;
    assert BookOf(b2, events[2..]) == b4;
    assert BookOf(b1, events[1..]) == b4;
  }

  lemma {:induction false} RestoredAt(file: seq<Entry>, a: string)
    ensures a in Restored(file) <==> a != "" && exists e :: e in file && e.addr == a
    ensures a in Restored(file) ==> exists e :: e in file && e.addr == a && Restored(file)[a] == NewRecord(a, e.title)
    decreases |file|
  {
    if file != [] {
      var n := |file| - 1;
      RestoredAt(file[..n], a);
      assert file == file[..n] + [file[n]];
    }
  }

  /** A restart brings back every agent, by address and label, as never polled. */
  lemma RestartKeepsAgents(t: Table, file: seq<Entry>)
    requires WellFormed(t) && Lists(file, t)
    ensures WellFormed(Restored(file))
    ensures ByAddr(Restored(file)) == map a | a in ByAddr(t) && a != "" :: NewRecord(a, ByAddr(t)[a].title)
  {
    RestoredWellFormed(file);
    var r, b := Restored(file), ByAddr(t);
    var kept := map a | a in b && a != "" :: NewRecord(a, b[a].title);
    forall a ensures a in r <==> a in kept
      ensures a in r ==> r[a] == kept[a]
    {
      RestoredAt(file, a);
      if a in kept {
        var id :| id in t && t[id].addr == a;
        assert Entry(a, t[id].title) in file;
      }
    }
    SameBook(r, kept);
  }

  // ---------------------------------------------------------------- single records

  /** A poll's record: the reported ID, the address and label it had, and now seen, online, with the
      reported stats and no error. No other record changes but one filed under that ID. */
  lemma PolledExactly(t: Table, id: string, stats: Stats, now: int)
    requires WellFormed(t) && id in t
    ensures var after, key := Polled(t, t[id].addr, stats, now), stats.agent.id;
      && after.Keys == t.Keys - {id} + {key}
      && after[key] == Record(key, t[id].addr, t[id].title, now, true, stats, "")
      && forall j :: j in t && j != id && j != key ==> j in after && after[j] == t[j]
  {
    KeyOfIs(t, id);
    hide WellFormed, KeyOf;
  }

  /** An agent that could not be polled goes offline with the error, and keeps the rest. */
  lemma OfflineExactly(t: Table, id: string, err: string)
    requires WellFormed(t) && id in t
    ensures var after, was := Marked(t, t[id].addr, err), t[id];
      && after.Keys == t.Keys
      && after[id] == Record(was.id, was.addr, was.title, was.lastSeen, false, was.stats, err)
      && forall j :: j in t && j != id ==> after[j] == t[j]
  {
    KeyOfIs(t, id);
    hide WellFormed, KeyOf;
  }

  /** Adding a known address only relabels it, if a label is given; a new one is filed under its
      address, never seen. */
  lemma AddedExactly(t: Table, addr: string, title: string)
    requires WellFormed(t)
    ensures forall id :: id in t && t[id].addr == addr ==>
      var was := t[id];
      Added(t, addr, title) == t[id := Record(was.id, was.addr, if title == "" then was.title else title,
                                              was.lastSeen, was.online, was.stats, was.err)]
    ensures (forall id :: id in t ==> t[id].addr != addr) ==>
      Added(t, addr, title) == t[addr := Record(addr, addr, title, 0, false, Stats(AgentInfo("", ""), []), "")]
  {
  }

  // ---------------------------------------------------------------- the order of All

  /** At the first difference s is smaller, or s ends there. */
  ghost predicate Smaller(s: string, t: string) {
    exists p: nat :: p <= |s| && p < |t| && s[..p] == t[..p] && (p == |s| || s[p] < t[p])
  }

  lemma {:induction false} BeforeExactly(s: string, t: string)
    ensures Before(s, t) <==> Smaller(s, t)
  {
    if t == [] {
    } else if s == [] {
      assert s[..0] == t[..0];
    } else if s[0] != t[0] {
      if s[0] < t[0] {
        assert s[..0] == t[..0];
      }
      if Smaller(s, t) {
        var p: nat :| p <= |s| && p < |t| && s[..p] == t[..p] && (p == |s| || s[p] < t[p]);
        assert p > 0 ==> s[..p][0] == t[..p][0];
      }
    } else {
      BeforeExactly(s[1..], t[1..]);
      if Smaller(s[1..], t[1..]) {
        var p: nat :| p <= |s| - 1 && p < |t| - 1 && s[1..][..p] == t[1..][..p] && (p == |s| - 1 || s[1..][p] < t[1..][p]);
        assert s[..p + 1] == [s[0]] + s[1..][..p] && t[..p + 1] == [t[0]] + t[1..][..p];
      }
      if Smaller(s, t) {
        var p: nat :| p <= |s| && p < |t| && s[..p] == t[..p] && (p == |s| || s[p] < t[p]);
        assert p > 0;
        assert s[1..][..p - 1] == s[..p][1..] && t[1..][..p - 1] == t[..p][1..];
      }
    }
  }

  /** All lists smaller host names first, an agent without one going by its address, and among equal
      ones smaller addresses first. */
  lemma OrderExactly(rs: seq<Record>, t: Table, i: nat, j: nat)
    requires SortedRecords(rs, t) && i < j < |rs|
    ensures var hi, hj := rs[i].stats.agent.hostname, rs[j].stats.agent.hostname;
      var ni, nj := if hi == "" then rs[i].addr else hi, if hj == "" then rs[j].addr else hj;
      Smaller(ni, nj) || (ni == nj && Smaller(rs[i].addr, rs[j].addr))
  {
    assert Precedes(rs[i], rs[j]);
    BeforeExactly(Name(rs[i]), Name(rs[j]));
    BeforeExactly(rs[i].addr, rs[j].addr);
  }
}
