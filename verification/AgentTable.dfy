/** The dashboard's table of agents (internal/dashboard/state.go): records keyed by agent ID,
    looked up by address. */
module AgentTable {
  import opened Base

  datatype AgentInfo = AgentInfo(id: string, hostname: string)

  datatype Stats = Stats(agent: AgentInfo, containers: seq<string>)

  // title is the source's Label, a reserved word here.
  datatype Record = Record(id: string, addr: string, title: string, lastSeen: int, online: bool, stats: Stats, err: string)

  // What save writes for one agent.
  datatype Entry = Entry(addr: string, title: string)

  type Table = map<string, Record>

  // ---------------------------------------------------------------- tables as values

  const NO_STATS := Stats(AgentInfo("", ""), [])

  /** An agent that was never polled goes by its address. */
  function NewRecord(addr: string, title: string): Record {
    Record(addr, addr, title, 0, false, NO_STATS, "")
  }

  ghost predicate WellFormed(t: Table) {
    && (forall id :: id in t ==> t[id].id == id)
    && (forall i, j :: i in t && j in t && t[i].addr == t[j].addr ==> i == j)
  }

  ghost function KeyOf(t: Table, addr: string): (r: Option<string>)
    ensures r.Some? ==> r.value in t && t[r.value].addr == addr
  {
    if exists id :: id in t && t[id].addr == addr then
      var id :| id in t && t[id].addr == addr;
      Some(id)
    else None
  }

  lemma KeyOfIs(t: Table, id: string)
    requires WellFormed(t) && id in t
    ensures KeyOf(t, t[id].addr) == Some(id)
  {
  }

  function Labelled(r: Record, title: string): Record {
    if title != "" then r.(title := title) else r
  }

  function Seen(r: Record, stats: Stats, now: int): Record {
    r.(id := stats.agent.id, lastSeen := now, online := true, stats := stats, err := "")
  }

  ghost function Added(t: Table, addr: string, title: string): Table {
    match KeyOf(t, addr)
    case Some(id) => t[id := Labelled(t[id], title)]
    case None => t[addr := NewRecord(addr, title)]
  }

  ghost function Polled(t: Table, addr: string, stats: Stats, now: int): Table {
    match KeyOf(t, addr)
    case Some(id) =>
      var r := Seen(t[id], stats, now);
      if id == r.id then t[id := r] else (t - {id})[r.id := r]
    case None => t
  }

  ghost function Marked(t: Table, addr: string, err: string): Table {
    match KeyOf(t, addr)
    case Some(id) => t[id := t[id].(online := false, err := err)]
    case None => t
  }

  ghost predicate ListsExcept(file: seq<Entry>, t: Table, todo: set<string>) {
    && (forall id :: id in t && id !in todo ==> Entry(t[id].addr, t[id].title) in file)
    && (forall e :: e in file ==> exists id :: id in t && e == Entry(t[id].addr, t[id].title))
  }

  lemma ListsOneMore(file: seq<Entry>, t: Table, todo: set<string>, id: string)
    requires ListsExcept(file, t, todo) && id in t
    ensures ListsExcept(file + [Entry(t[id].addr, t[id].title)], t, todo - {id})
  {
    var more := file + [Entry(t[id].addr, t[id].title)];
    forall i | i in t && i !in todo - {id} ensures Entry(t[i].addr, t[i].title) in more {
      if i != id {
        assert Entry(t[i].addr, t[i].title) in file;
      }
    }
  }

  /** The file lists each agent's address and label, in some order. */
  ghost predicate Lists(file: seq<Entry>, t: Table) {
    |file| == |t| && ListsExcept(file, t, {})
  }

  function Restored(file: seq<Entry>): Table {
    if file == [] then map[]
    else
      var e := file[|file| - 1];
      var t := Restored(file[..|file| - 1]);
      if e.addr == "" then t else t[e.addr := NewRecord(e.addr, e.title)]
  }

  // ---------------------------------------------------------------- order

  // Strings compare element by element, as Go's do.
  predicate Before(s: string, t: string) {
    if t == [] then false
    else if s == [] then true
    else s[0] < t[0] || (s[0] == t[0] && Before(s[1..], t[1..]))
  }

  function Name(r: Record): string {
    if r.stats.agent.hostname == "" then r.addr else r.stats.agent.hostname
  }

  predicate Precedes(a: Record, b: Record) {
    if Name(a) != Name(b) then Before(Name(a), Name(b)) else Before(a.addr, b.addr)
  }

  predicate Ascending(rs: seq<Record>) {
    forall i, j :: 0 <= i < j < |rs| ==> Precedes(rs[i], rs[j])
  }

  ghost predicate SortedExcept(rs: seq<Record>, t: Table, todo: set<string>) {
    Ascending(rs) && forall r :: r in rs <==> exists id :: id in t && id !in todo && r == t[id]
  }

  /** The table's records, each once, in strictly ascending order. */
  ghost predicate SortedRecords(rs: seq<Record>, t: Table) {
    SortedExcept(rs, t, {})
  }

  lemma SortedOneMore(rs: seq<Record>, t: Table, todo: set<string>, id: string)
    requires WellFormed(t) && SortedExcept(rs, t, todo) && id in todo && id in t
    ensures SortedExcept(Inserted(rs, t[id]), t, todo - {id})
  {
    var more := Inserted(rs, t[id]);
    InsertedSorts(rs, t[id]);
    forall r ensures r in more <==> exists i :: i in t && i !in todo - {id} && r == t[i] {
      if r in more && r != t[id] {
        var i :| i in t && i !in todo && r == t[i];
        assert i !in todo - {id};
      }
    }
  }

  lemma {:induction false} BeforeTrichotomy(s: string, t: string)
    ensures s != t <==> Before(s, t) || Before(t, s)
    ensures !(Before(s, t) && Before(t, s))
  {
    if s != [] && t != [] {
      BeforeTrichotomy(s[1..], t[1..]);
      assert s == [s[0]] + s[1..] && t == [t[0]] + t[1..];
    }
  }

  lemma {:induction false} BeforeTransitive(s: string, t: string, u: string)
    requires Before(s, t) && Before(t, u)
    ensures Before(s, u)
  {
    if s != [] && s[0] == t[0] == u[0] {
      BeforeTransitive(s[1..], t[1..], u[1..]);
    }
  }

  lemma PrecedesTransitive(a: Record, b: Record, c: Record)
    requires Precedes(a, b) && Precedes(b, c)
    ensures Precedes(a, c)
  {
    BeforeTrichotomy(Name(a), Name(b));
    BeforeTrichotomy(Name(b), Name(c));
    BeforeTrichotomy(Name(a), Name(c));
    if Name(a) != Name(b) && Name(b) != Name(c) {
      BeforeTransitive(Name(a), Name(b), Name(c));
    } else if Name(a) == Name(b) == Name(c) {
      BeforeTransitive(a.addr, b.addr, c.addr);
    }
  }

  lemma PrecedesTotal(a: Record, b: Record)
    ensures !(Precedes(a, b) && Precedes(b, a)) && !Precedes(a, a)
    ensures a.addr != b.addr ==> Precedes(a, b) || Precedes(b, a)
  {
    BeforeTrichotomy(Name(a), Name(b));
    BeforeTrichotomy(a.addr, b.addr);
    BeforeTrichotomy(Name(a), Name(a));
    BeforeTrichotomy(a.addr, a.addr);
  }

  /** All's answer does not depend on the order in which the map is walked. */
  lemma {:induction false} SortedIsUnique(a: seq<Record>, b: seq<Record>)
    requires Ascending(a) && Ascending(b)
    requires forall r :: r in a <==> r in b
    ensures a == b
    decreases |a|
  {
    hide Precedes;
    if a == [] {
      Inhabited(b);
    } else {
      assert a[0] in b;
      var i :| 0 <= i < |b| && b[i] == a[0];
      assert b[0] in a;
      var j :| 0 <= j < |a| && a[j] == b[0];
      PrecedesTotal(a[0], b[0]);
      assert i == 0 && j == 0;
      forall r ensures r in a[1..] <==> r in b[1..] {
        SameTail(a, b, r);
        SameTail(b, a, r);
      }
      SortedIsUnique(a[1..], b[1..]);
      assert a == [a[0]] + a[1..] && b == [b[0]] + b[1..];
    }
  }

  lemma Inhabited(s: seq<Record>)
    ensures s != [] ==> exists r :: r in s
  {
    if s != [] {
      assert s[0] in s;
    }
  }

  lemma SameTail(a: seq<Record>, b: seq<Record>, r: Record)
    requires a != [] && b != [] && a[0] == b[0] && (forall x :: x in a ==> x in b)
    requires Ascending(a)
    ensures r in a[1..] ==> r in b[1..]
  {
    if r in a[1..] {
      var i :| 0 <= i < |a| - 1 && a[1..][i] == r;
      assert a[i + 1] == r && Precedes(a[0], r) && r in b;
      PrecedesTotal(r, r);
      assert b == [b[0]] + b[1..];
    }
  }

  function Inserted(rs: seq<Record>, r: Record): seq<Record> {
    if rs == [] then [r]
    else if Precedes(r, rs[0]) then [r] + rs
    else [rs[0]] + Inserted(rs[1..], r)
  }

  lemma {:induction false} InsertedSorts(rs: seq<Record>, r: Record)
    requires Ascending(rs) && forall x :: x in rs ==> x.addr != r.addr
    ensures Ascending(Inserted(rs, r))
    ensures forall x :: x in Inserted(rs, r) <==> x == r || x in rs
  {
    if rs == [] {
    } else if Precedes(r, rs[0]) {
      forall i, j | 0 <= i < j < |rs| + 1 ensures Precedes(([r] + rs)[i], ([r] + rs)[j]) {
        if i == 0 && j > 1 {
          PrecedesTransitive(r, rs[0], rs[j - 1]);
        }
      }
    } else {
      var tail := Inserted(rs[1..], r);
      InsertedSorts(rs[1..], r);
      hide Inserted;
      assert rs == [rs[0]] + rs[1..];
      assert rs[0] in rs;
      PrecedesTotal(r, rs[0]);
      forall i, j | 0 <= i < j < |tail| + 1 ensures Precedes(([rs[0]] + tail)[i], ([rs[0]] + tail)[j]) {
        if i == 0 {
          var x := tail[j - 1];
          assert x in tail;
          if x != r {
            assert x in rs[1..];
            var k :| 0 <= k < |rs| - 1 && rs[1..][k] == x;
            assert Precedes(rs[0], rs[k + 1]);
          }
        }
      }
    }
  }

  // ---------------------------------------------------------------- the table

  class AgentRecord {
    var id: string
    var addr: string
    var title: string
    var lastSeen: int
    var online: bool
    var stats: Stats
    var err: string

    constructor (addr: string, title: string)
      ensures View() == NewRecord(addr, title)
    {
      this.id, this.addr, this.title := addr, addr, title;
      lastSeen, online, stats, err := 0, false, NO_STATS, "";
    }

    method Update(stats: Stats, now: int)
      modifies this
      ensures View() == Seen(old(View()), stats, now)
    {
      id := stats.agent.id;
      lastSeen := now;
      online := true;
      this.stats := stats;
      err := "";
    }

    function View(): Record
      reads this
    {
      Record(id, addr, title, lastSeen, online, stats, err)
    }
  }

  class State {
    var agents: map<string, AgentRecord>
    var file: Option<seq<Entry>> // None when no path to persist to was given

    ghost function Contents(): Table
      reads this`agents, agents.Values
    {
      map id | id in agents :: agents[id].View()
    }

    ghost predicate Valid()
      reads this`agents, agents.Values
    {
      WellFormed(Contents())
    }

    constructor (saved: Option<seq<Entry>>)
      ensures Valid() && fresh(agents.Values) && file == saved
      ensures Contents() == if saved.None? then map[] else Restored(saved.value)
    {
      agents := map[];
      file := saved;
      new;
      if saved.Some? {
        var entries := saved.value;
        for i := 0 to |entries|
          invariant (forall id :: id in agents ==> fresh(agents[id])) && file == saved
          invariant Contents() == Restored(entries[..i])
        {
          assert entries[..i + 1][..i] == entries[..i];
          var e := entries[i];
          if e.addr != "" {
            var r := new AgentRecord(e.addr, e.title);
            agents := agents[e.addr := r];
          }
        }
        assert entries[..|entries|] == entries;
        RestoredWellFormed(entries);
      }
    }

    twostate lemma NothingWritten()
      requires agents == old(agents) && forall id :: id in agents ==> unchanged(agents[id])
      ensures Contents() == old(Contents())
    {
    }

    /** Writing one record leaves the others as they were. */
    twostate lemma OneWritten(key: string, new r: AgentRecord)
      requires agents == old(agents) && key in agents && agents[key] == r
      requires old(forall id :: id in agents ==> agents[id].id == id)
      requires forall o :: o in agents.Values && o != r ==> unchanged(o)
      ensures Contents() == old(Contents())[key := r.View()]
    {
      forall id | id in agents && id != key ensures Contents()[id] == old(Contents())[id] {
        assert agents[id] != r && agents[id] in agents.Values;
      }
    }

    /** So does filing it under its new ID, except for a record already there. */
    twostate lemma OneRekeyed(key: string, new r: AgentRecord)
      requires key in old(agents) && old(agents)[key] == r && agents == (old(agents) - {key})[r.id := r]
      requires old(forall id :: id in agents ==> agents[id].id == id)
      requires forall o :: o in old(agents.Values) && o != r ==> unchanged(o)
      ensures Contents() == (old(Contents()) - {key})[r.id := r.View()]
    {
      forall id | id in agents && id != r.id ensures Contents()[id] == old(Contents())[id] {
        assert old(agents)[id] != r && old(agents)[id] in old(agents.Values);
      }
    }

    twostate lemma OneAdded(key: string, new r: AgentRecord)
      requires agents == old(agents)[key := r]
      requires forall o :: o in old(agents.Values) ==> unchanged(o)
      ensures Contents() == old(Contents())[key := r.View()]
    {
      forall id | id in agents && id != key ensures Contents()[id] == old(Contents())[id] {
        assert old(agents)[id] in old(agents.Values);
      }
    }

    ghost predicate Holds(r: AgentRecord)
      reads this`agents, r
    {
      r.id in agents && agents[r.id] == r
    }

    method FindByAddr(addr: string) returns (found: Option<AgentRecord>)
      requires Valid()
      ensures found.None? <==> KeyOf(Contents(), addr).None?
      ensures found.Some? ==> Holds(found.value) && KeyOf(Contents(), addr) == Some(found.value.id)
      ensures found.Some? ==> Contents()[found.value.id] == found.value.View()
    {
      var todo := agents.Keys;
      while todo != {}
        invariant todo <= agents.Keys
        invariant forall id :: id in agents && id !in todo ==> agents[id].addr != addr
      {
        var id :| id in todo;
        if agents[id].addr == addr {
          KeyOfIs(Contents(), id);
          return Some(agents[id]);
        }
        todo := todo - {id};
      }
      assert forall id :: id in Contents() ==> Contents()[id].addr != addr;
      return None;
    }

    method Entries() returns (entries: seq<Entry>)
      requires Valid()
      ensures Lists(entries, Contents())
    {
      ghost var t := Contents();
      entries := [];
      var todo := agents.Keys;
      SameSize(agents, t);
      hide WellFormed;
      while todo != {}
        invariant todo <= agents.Keys && |entries| + |todo| == |t| && ListsExcept(entries, t, todo)
      {
        var id :| id in todo;
        ListsOneMore(entries, t, todo, id);
        entries := entries + [Entry(agents[id].addr, agents[id].title)];
        todo := todo - {id};
      }
    }

    method Save()
      requires Valid()
      modifies this`file
      ensures Valid() && Contents() == old(Contents())
      ensures old(file).None? ==> file == None
      ensures old(file).Some? ==> file.Some? && Lists(file.value, Contents())
    {
      if file == None {
        return;
      }
      hide WellFormed, Contents, Lists;
      var entries := Entries();
      file := Some(entries);
      NothingWritten();
    }

    method Relabel(r: AgentRecord, title: string)
      requires Valid() && Holds(r)
      modifies r
      ensures Holds(r) && r.addr == old(r.addr)
      ensures Contents() == old(Contents())[r.id := Labelled(old(Contents())[r.id], title)]
    {
      OwnKeys(Contents());
      assert forall id :: id in agents ==> agents[id].id == Contents()[id].id;
      assert Contents()[r.id] == r.View();
      hide WellFormed, Contents;
      if title != "" {
        r.title := title;
      }
      OneWritten(r.id, r);
    }

    method Register(addr: string, title: string) returns (r: AgentRecord)
      requires Valid() && KeyOf(Contents(), addr).None?
      modifies this`agents
      ensures Holds(r) && r.addr == addr && fresh(r) && agents == old(agents)[addr := r]
      ensures Contents() == old(Contents())[addr := NewRecord(addr, title)]
    {
      hide WellFormed, KeyOf, Contents;
      r := new AgentRecord(addr, title);
      agents := agents[addr := r];
      OneAdded(addr, r);
    }

    method AddAgent(addr: string, title: string) returns (r: AgentRecord)
      requires Valid()
      modifies this, agents.Values
      ensures Valid() && (fresh(r) || r in old(agents.Values)) && (agents == old(agents) || agents == old(agents)[addr := r])
      ensures Contents() == Added(old(Contents()), addr, title)
      ensures Holds(r) && r.addr == addr
      ensures old(file).None? ==> file == None
      ensures old(file).Some? ==> file.Some? && Lists(file.value, Contents())
    {
      AddedWellFormed(Contents(), addr, title);
      hide WellFormed, KeyOf, Lists, Contents;
      var found := FindByAddr(addr);
      if found.Some? {
        r := found.value;
        Relabel(r, title);
      } else {
        r := Register(addr, title);
      }
      Save();
    }

    method UpdateFromPoll(addr: string, stats: Stats, now: int)
      requires Valid()
      modifies this`agents, agents.Values
      ensures Valid() && agents.Values <= old(agents.Values)
      ensures Contents() == Polled(old(Contents()), addr, stats, now)
    {
      ghost var was := Contents();
      PolledWellFormed(was, addr, stats, now);
      OwnKeys(was);
      assert forall id :: id in agents ==> agents[id].id == was[id].id;
      hide WellFormed, KeyOf, Contents;
      var found := FindByAddr(addr);
      if found == None {
        return;
      }
      var r := found.value;
      var oldID := r.id;
      r.Update(stats, now);
      if oldID != r.id {
        agents := agents - {oldID};
        agents := agents[r.id := r];
        OneRekeyed(oldID, r);
        assert Contents() == Polled(was, addr, stats, now);
      } else {
        OneWritten(oldID, r);
        assert Contents() == Polled(was, addr, stats, now);
      }
    }

    method MarkOffline(addr: string, err: string)
      requires Valid()
      modifies agents.Values
      ensures Valid()
      ensures Contents() == Marked(old(Contents()), addr, err)
    {
      ghost var was := Contents();
      OwnKeys(was);
      MarkedWellFormed(was, addr, err);
      assert forall id :: id in agents ==> agents[id].id == was[id].id;
      hide WellFormed, KeyOf, Contents;
      var found := FindByAddr(addr);
      if found == None {
        return;
      }
      var r := found.value;
      r.online := false;
      r.err := err;
      OneWritten(r.id, r);
      assert Contents() == Marked(was, addr, err);
    }

    method RemoveAgent(id: string) returns (removed: bool)
      requires Valid()
      modifies this
      ensures Valid() && agents.Values <= old(agents.Values)
      ensures Contents() == old(Contents()) - {id}
      ensures removed == (id in old(Contents()))
      ensures old(file).None? || !removed ==> file == old(file)
      ensures old(file).Some? && removed ==> file.Some? && Lists(file.value, Contents())
    {
      if id !in agents {
        assert Contents() == Contents() - {id};
        return false;
      }
      ghost var was := Contents();
      agents := agents - {id};
      assert Contents() == was - {id};
      Save();
      return true;
    }

    method Get(addr: string) returns (r: Option<Record>)
      requires Valid()
      ensures r == (match KeyOf(Contents(), addr) case Some(id) => Some(Contents()[id]) case None => None)
    {
      var found := FindByAddr(addr);
      if found == None {
        return None;
      }
      return Some(found.value.View());
    }

    method All() returns (records: seq<Record>)
      requires Valid()
      ensures SortedRecords(records, Contents())
    {
      ghost var t := Contents();
      records := [];
      var todo := agents.Keys;
      while todo != {}
        invariant todo <= agents.Keys && SortedExcept(records, t, todo)
      {
        var id :| id in todo;
        SortedOneMore(records, t, todo, id);
        records := Inserted(records, agents[id].View());
        todo := todo - {id};
      }
    }
  }

  lemma SameSize<A, B>(m: map<string, A>, n: map<string, B>)
    requires m.Keys == n.Keys
    ensures |m| == |n|
  {
    assert |m.Keys| == |m| && |n.Keys| == |n|;
  }

  lemma {:induction false} RestoredWellFormed(file: seq<Entry>)
    ensures WellFormed(Restored(file))
    ensures forall a :: a in Restored(file) ==> Restored(file)[a].addr == a
    decreases |file|
  {
    if file != [] {
      RestoredWellFormed(file[..|file| - 1]);
    }
  }

  lemma OwnKeys(t: Table)
    requires WellFormed(t)
    ensures forall id :: id in t ==> t[id].id == id
  {
  }

  lemma MarkedWellFormed(t: Table, addr: string, err: string)
    requires WellFormed(t)
    ensures WellFormed(Marked(t, addr, err))
  {
  }

  lemma AddedWellFormed(t: Table, addr: string, title: string)
    requires WellFormed(t)
    ensures WellFormed(Added(t, addr, title))
  {
  }

  lemma PolledWellFormed(t: Table, addr: string, stats: Stats, now: int)
    requires WellFormed(t)
    ensures WellFormed(Polled(t, addr, stats, now))
  {
  }
}
