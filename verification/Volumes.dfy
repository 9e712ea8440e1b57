/** Reattaching anonymous volumes (internal/agent/upgrade.go, preserveAnonymousVolumes). */
module Volumes {
  import opened Base
  import opened Text

  datatype MountPoint = MountPoint(isVolume: bool, name: string, destination: string, writable: bool)

  /** The second of the fields a ':' separates, when there are at least two. */
  function SecondField(bind: string): Option<string> {
    match IndexOf(bind, ':')
    case None => None
    case Some(i) =>
      var rest := bind[i + 1..];
      match IndexOf(rest, ':')
      case None => Some(rest)
      case Some(j) => Some(rest[..j])
  }

  function BindFor(m: MountPoint): string {
    m.name + ":" + m.destination + if m.writable then "" else ":ro"
  }

  predicate Named(m: MountPoint) {
    m.isVolume && m.name != ""
  }

  /** The destinations taken by binds and mounts. */
  ghost function Covered(binds: seq<string>, targets: seq<string>): set<string> {
    (set b | b in binds && SecondField(b).Some? :: SecondField(b).value) + (set t | t in targets)
  }

  /** The binds for the named volumes among the mounts whose destinations are not yet covered. */
  function Added(mounts: seq<MountPoint>, covered: set<string>): seq<string> {
    if mounts == [] then []
    else
      var m := mounts[0];
      if !Named(m) || m.destination in covered then Added(mounts[1..], covered)
      else [BindFor(m)] + Added(mounts[1..], covered + {m.destination})
  }

  method PreserveAnonymousVolumes(mounts: seq<MountPoint>, userBinds: seq<string>, targets: seq<string>)
    returns (binds: seq<string>)
    ensures binds == userBinds + Added(mounts, Covered(userBinds, targets))
  {
    binds := userBinds;
    var covered: set<string> := {};
    for i := 0 to |userBinds|
      invariant covered == Covered(userBinds[..i], [])
    {
      var second := SecondField(userBinds[i]);
      assert userBinds[..i + 1] == userBinds[..i] + [userBinds[i]];
      if second.Some? {
        covered := covered + {second.value};
      }
    }
    assert userBinds[..|userBinds|] == userBinds;
    for i := 0 to |targets|
      invariant covered == Covered(userBinds, targets[..i])
    {
      assert targets[..i + 1] == targets[..i] + [targets[i]];
      covered := covered + {targets[i]};
    }
    assert targets[..|targets|] == targets;
    for i := 0 to |mounts|
      invariant binds + Added(mounts[i..], covered) == userBinds + Added(mounts, Covered(userBinds, targets))
    {
      var m := mounts[i];
      assert mounts[i..][0] == m && mounts[i..][1..] == mounts[i + 1..];
      if !m.isVolume || m.name == "" || m.destination in covered {
        continue;
      }
      var b := m.name + ":" + m.destination;
      if !m.writable {
        b := b + ":ro";
      }
      assert b == BindFor(m);
      binds := binds + [b];
      covered := covered + {m.destination};
    }
  }

  /** Names and paths as Docker has them. */
  ghost predicate Plain(mounts: seq<MountPoint>) {
    forall m :: m in mounts ==> ':' !in m.name && ':' !in m.destination
  }

  lemma BindTakesDestination(m: MountPoint)
    requires ':' !in m.name && ':' !in m.destination
    ensures SecondField(BindFor(m)) == Some(m.destination)
  {
    var rest := m.destination + if m.writable then "" else ":ro";
    assert BindFor(m) == m.name + [':'] + rest;
    IndexOfAt(m.name, ':', rest);
    assert BindFor(m)[|m.name| + 1..] == rest;
    if m.writable {
      assert rest == m.destination;
      IndexOfNone(rest, ':');
    } else {
      assert rest == m.destination + [':'] + "ro";
      IndexOfAt(m.destination, ':', "ro");
    }
  }

  function SecondFields(binds: seq<string>): (fields: seq<Option<string>>)
    ensures |fields| == |binds| && forall i :: 0 <= i < |binds| ==> fields[i] == SecondField(binds[i])
  {
    seq(|binds|, i requires 0 <= i < |binds| => SecondField(binds[i]))
  }

  /** Destinations not covered before, each taken once. */
  ghost predicate FreeAndDistinct(taken: seq<Option<string>>, covered: set<string>) {
    && (forall i :: 0 <= i < |taken| ==> taken[i].Some? && taken[i].value !in covered)
    && (forall i, j :: 0 <= i < j < |taken| ==> taken[i] != taken[j])
  }

  /** The added binds take destinations that were free, each once, and all the named volumes'
      destinations end up covered. */
  lemma {:induction false} AddedTakeFreeDestinations(mounts: seq<MountPoint>, covered: set<string>)
    requires Plain(mounts)
    ensures FreeAndDistinct(SecondFields(Added(mounts, covered)), covered)
    ensures forall m :: m in mounts && Named(m) ==>
      m.destination in covered || Some(m.destination) in SecondFields(Added(mounts, covered))
  {
    hide SecondField, SecondFields;
    if mounts != [] {
      var m, rest := mounts[0], mounts[1..];
      var added := Added(mounts, covered);
      if !Named(m) || m.destination in covered {
        AddedTakeFreeDestinations(rest, covered);
      } else {
        BindTakesDestination(m);
        AddedTakeFreeDestinations(rest, covered + {m.destination});
        var more := Added(rest, covered + {m.destination});
        assert added == [BindFor(m)] + more;
        var taken, later := SecondFields(added), SecondFields(more);
        assert taken == [Some(m.destination)] + later;
        forall i, j | 0 <= i < j < |taken| ensures taken[i] != taken[j] {
          assert taken[j] == later[j - 1] && later[j - 1].value !in covered + {m.destination};
          if i > 0 { assert taken[i] == later[i - 1]; }
        }
        forall i | 0 <= i < |taken| ensures taken[i].Some? && taken[i].value !in covered {
          if i > 0 { assert later[i - 1].Some? && later[i - 1].value !in covered + {m.destination}; }
        }
        forall n | n in mounts && Named(n) ensures n.destination in covered || Some(n.destination) in SecondFields(added) {
          if n != m && n.destination != m.destination && n.destination !in covered {
            assert n in rest && Some(n.destination) in later;
          }
        }
      }
    }
  }

  lemma {:induction false} NothingToAdd(mounts: seq<MountPoint>, covered: set<string>)
    requires forall m :: m in mounts && Named(m) ==> m.destination in covered
    ensures Added(mounts, covered) == []
  {
    if mounts != [] {
      assert mounts[0] in mounts;
      NothingToAdd(mounts[1..], covered);
    }
  }

  /** Feeding the result back as the container's binds adds nothing more. */
  lemma PreservingIsIdempotent(mounts: seq<MountPoint>, userBinds: seq<string>, targets: seq<string>)
    requires Plain(mounts)
    ensures var binds := userBinds + Added(mounts, Covered(userBinds, targets));
      && (forall m :: m in mounts && Named(m) ==> m.destination in Covered(binds, targets))
      && binds + Added(mounts, Covered(binds, targets)) == binds
  {
    var covered := Covered(userBinds, targets);
    var added := Added(mounts, covered);
    var binds := userBinds + added;
    AddedTakeFreeDestinations(mounts, covered);
    forall m | m in mounts && Named(m) ensures m.destination in Covered(binds, targets) {
      if m.destination in covered {
        if m.destination !in (set t | t in targets) {
          var b :| b in userBinds && SecondField(b) == Some(m.destination);
          assert b in binds;
        }
      } else {
        var i :| 0 <= i < |added| && SecondFields(added)[i] == Some(m.destination);
        assert added[i] in binds;
      }
    }
    NothingToAdd(mounts, Covered(binds, targets));
  }

  // ---------------------------------------------------------------- binds, field by field

  /** The fields that ':' separates, as strings.Split gives them. */
  function Fields(s: string): (f: seq<string>)
    ensures |f| >= 1
  {
    match IndexOf(s, ':')
    case None => [s]
    case Some(i) => [s[..i]] + Fields(s[i + 1..])
  }

  function Joined(f: seq<string>): string
    requires |f| >= 1
  {
    if |f| == 1 then f[0] else f[0] + ":" + Joined(f[1..])
  }

  /** Splitting loses nothing and leaves no separator. */
  lemma {:induction false} FieldsJoin(s: string)
    ensures Joined(Fields(s)) == s
    ensures forall k :: 0 <= k < |Fields(s)| ==> ':' !in Fields(s)[k]
    decreases |s|
  {
    var i := IndexOf(s, ':');
    if i.Some? {
      FieldsJoin(s[i.value + 1..]);
      assert s == s[..i.value] + ":" + s[i.value + 1..];
      var rest := Fields(s[i.value + 1..]);
      assert Fields(s)[1..] == rest;
    }
  }

  lemma SecondOfFields(s: string)
    ensures SecondField(s) == if |Fields(s)| >= 2 then Some(Fields(s)[1]) else None
  {
  }

  lemma FieldsOfTwo(a: string, b: string)
    requires ':' !in a && ':' !in b
    ensures Fields(a + ":" + b) == [a, b]
  {
    assert a + ":" + b == a + [':'] + b;
    IndexOfAt(a, ':', b);
    IndexOfNone(b, ':');
    assert (a + [':'] + b)[..|a|] == a && (a + [':'] + b)[|a| + 1..] == b;
  }

  lemma FieldsOfThree(a: string, b: string, c: string)
    requires ':' !in a && ':' !in b && ':' !in c
    ensures Fields(a + ":" + (b + ":" + c)) == [a, b, c]
  {
    FieldsOfTwo(b, c);
    var s, rest := a + ":" + (b + ":" + c), b + ":" + c;
    assert s == a + [':'] + rest;
    IndexOfAt(a, ':', rest);
    assert s[..|a|] == a && s[|a| + 1..] == rest;
  }

  /** A destination that no bind of the user, read field by field, and no mount of theirs takes. */
  ghost predicate Free(destination: string, userBinds: seq<string>, targets: seq<string>) {
    && (forall i :: 0 <= i < |userBinds| && |Fields(userBinds[i])| >= 2 ==> Fields(userBinds[i])[1] != destination)
    && (forall i :: 0 <= i < |targets| ==> targets[i] != destination)
  }

  lemma FreeExactly(destination: string, userBinds: seq<string>, targets: seq<string>)
    ensures destination !in Covered(userBinds, targets) <==> Free(destination, userBinds, targets)
  {
    forall b ensures SecondField(b) == if |Fields(b)| >= 2 then Some(Fields(b)[1]) else None {
      SecondOfFields(b);
    }
    hide SecondField, Fields;
    if destination !in Covered(userBinds, targets) {
      forall i | 0 <= i < |userBinds| && |Fields(userBinds[i])| >= 2 ensures Fields(userBinds[i])[1] != destination {
        assert userBinds[i] in userBinds && SecondField(userBinds[i]).Some?;
      }
    }
  }

  /** The mount at i is a named volume at a free destination, the first such mount there. */
  ghost predicate Attaches(mounts: seq<MountPoint>, i: nat, userBinds: seq<string>, targets: seq<string>)
    requires i < |mounts|
  {
    && mounts[i].isVolume && mounts[i].name != "" && Free(mounts[i].destination, userBinds, targets)
    && forall j: nat :: j < i && mounts[j].isVolume && mounts[j].name != "" ==> mounts[j].destination != mounts[i].destination
  }

  /** The bind names the volume, its place, and whether it is read-only. */
  ghost predicate BindsMount(bind: string, m: MountPoint) {
    Fields(bind) == if m.writable then [m.name, m.destination] else [m.name, m.destination, "ro"]
  }

  ghost predicate BindMounts(mounts: seq<MountPoint>, binds: seq<string>, at: seq<nat>) {
    && |at| == |binds|
    && forall k :: 0 <= k < |at| ==> at[k] < |mounts| && BindsMount(binds[k], mounts[at[k]])
  }

  ghost predicate Increasing(at: seq<nat>) {
    forall j, k :: 0 <= j < k < |at| ==> at[j] < at[k]
  }

  ghost predicate Chooses(mounts: seq<MountPoint>, covered: set<string>, at: seq<nat>) {
    forall i: nat :: i < |mounts| ==> (i in at <==> FirstOpen(mounts, i, covered))
  }

  /** at, increasing, tells which mount each bind is for; exactly those that are to be attached. */
  ghost predicate BindsAt(mounts: seq<MountPoint>, binds: seq<string>, covered: set<string>, at: seq<nat>) {
    BindMounts(mounts, binds, at) && Increasing(at) && Chooses(mounts, covered, at)
  }

  predicate FirstOpen(mounts: seq<MountPoint>, i: nat, covered: set<string>)
    requires i < |mounts|
  {
    && Named(mounts[i]) && mounts[i].destination !in covered
    && forall j: nat :: j < i && Named(mounts[j]) ==> mounts[j].destination != mounts[i].destination
  }

  lemma BindForBinds(m: MountPoint)
    requires ':' !in m.name && ':' !in m.destination
    ensures BindsMount(BindFor(m), m)
  {
    if m.writable {
      FieldsOfTwo(m.name, m.destination);
      assert BindFor(m) == m.name + ":" + m.destination;
    } else {
      FieldsOfThree(m.name, m.destination, "ro");
      assert BindFor(m) == m.name + ":" + (m.destination + ":" + "ro");
    }
  }

  lemma {:induction false} AddedBindMounts(mounts: seq<MountPoint>, covered: set<string>) returns (at: seq<nat>)
    requires Plain(mounts)
    ensures BindsAt(mounts, Added(mounts, covered), covered, at)
    decreases |mounts|
  {
    hide BindsAt, BindsMount, FirstOpen;
    if mounts == [] {
      at := [];
      assert BindsAt([], [], covered, []) by { NoBinds(covered); }
    } else {
      var m, rest := mounts[0], mounts[1..];
      assert m in mounts;
      if Named(m) && m.destination !in covered {
        var later := AddedBindMounts(rest, covered + {m.destination});
        at := FirstBinds(mounts, Added(rest, covered + {m.destination}), covered, later);
      } else {
        var later := AddedBindMounts(rest, covered);
        at := FirstDoesNot(mounts, Added(rest, covered), covered, later);
      }
    }
  }

  lemma NoBinds(covered: set<string>)
    ensures BindsAt([], [], covered, [])
  {
  }

  function Later(at: seq<nat>): (r: seq<nat>)
    ensures |r| == |at| && forall k :: 0 <= k < |at| ==> r[k] == at[k] + 1
  {
    seq(|at|, k requires 0 <= k < |at| => at[k] + 1)
  }

  lemma FirstDoesNot(mounts: seq<MountPoint>, binds: seq<string>, covered: set<string>, at: seq<nat>) returns (r: seq<nat>)
    requires mounts != [] && !(Named(mounts[0]) && mounts[0].destination !in covered)
    requires BindsAt(mounts[1..], binds, covered, at)
    ensures BindsAt(mounts, binds, covered, r)
  {
    r := Later(at);
    hide BindsMount;
    Shifted(mounts, covered, covered, at, r, false);
    hide FirstOpen;
    forall k | 0 <= k < |r| ensures r[k] < |mounts| && BindsMount(binds[k], mounts[r[k]]) {
      assert mounts[1..][at[k]] == mounts[r[k]];
    }
  }

  lemma FirstBinds(mounts: seq<MountPoint>, binds: seq<string>, covered: set<string>, at: seq<nat>) returns (r: seq<nat>)
    requires mounts != [] && Plain(mounts) && Named(mounts[0]) && mounts[0].destination !in covered
    requires BindsAt(mounts[1..], binds, covered + {mounts[0].destination}, at)
    ensures BindsAt(mounts, [BindFor(mounts[0])] + binds, covered, r)
  {
    hide BindMounts, Increasing, Chooses;
    r := [0] + Later(at);
    assert mounts[0] in mounts;
    BindForBinds(mounts[0]);
    FirstChosen(mounts, covered, at);
    FirstBound(mounts, binds, at);
    FirstIncreasing(at);
  }

  lemma FirstIncreasing(at: seq<nat>)
    requires Increasing(at)
    ensures Increasing([0] + Later(at))
  {
  }

  lemma FirstChosen(mounts: seq<MountPoint>, covered: set<string>, at: seq<nat>)
    requires mounts != [] && Named(mounts[0]) && mounts[0].destination !in covered
    requires Chooses(mounts[1..], covered + {mounts[0].destination}, at)
    ensures Chooses(mounts, covered, [0] + Later(at))
  {
    Shifted(mounts, covered, covered + {mounts[0].destination}, at, Later(at), true);
    hide FirstOpen;
    assert forall i: nat :: i in [0] + Later(at) <==> i == 0 || i in Later(at);
  }

  lemma FirstBound(mounts: seq<MountPoint>, binds: seq<string>, at: seq<nat>)
    requires mounts != [] && BindsMount(BindFor(mounts[0]), mounts[0]) && BindMounts(mounts[1..], binds, at)
    ensures BindMounts(mounts, [BindFor(mounts[0])] + binds, [0] + Later(at))
  {
    hide BindsMount, BindFor;
    var more, r := [BindFor(mounts[0])] + binds, [0] + Later(at);
    forall k | 0 <= k < |r| ensures r[k] < |mounts| && BindsMount(more[k], mounts[r[k]]) {
      if k > 0 { assert mounts[1..][at[k - 1]] == mounts[r[k]]; }
    }
  }

  lemma Shifted(mounts: seq<MountPoint>, covered: set<string>, covered': set<string>, later: seq<nat>, shifted: seq<nat>, adds: bool)
    requires mounts != [] && adds == (Named(mounts[0]) && mounts[0].destination !in covered)
    requires covered' == if adds then covered + {mounts[0].destination} else covered
    requires |shifted| == |later| && forall k :: 0 <= k < |later| ==> shifted[k] == later[k] + 1
    requires forall i: nat :: i < |mounts| - 1 ==> (i in later <==> FirstOpen(mounts[1..], i, covered'))
    ensures forall i: nat :: 0 < i < |mounts| ==> (i in shifted <==> FirstOpen(mounts, i, covered))
    ensures 0 !in shifted && (FirstOpen(mounts, 0, covered) <==> adds)
  {
    forall i: nat | 0 < i < |mounts| ensures i in shifted <==> FirstOpen(mounts, i, covered) {
      assert i in shifted <==> i - 1 in later by {
        if i - 1 in later {
          var k :| 0 <= k < |later| && later[k] == i - 1;
          assert shifted[k] == i;
        }
      }
      var rest := mounts[1..];
      assert rest[i - 1] == mounts[i];
      if FirstOpen(mounts, i, covered) {
        forall j: nat | j < i - 1 && Named(rest[j]) ensures rest[j].destination != rest[i - 1].destination {
          assert rest[j] == mounts[j + 1];
        }
      }
      if FirstOpen(rest, i - 1, covered') {
        forall j: nat | j < i && Named(mounts[j]) ensures mounts[j].destination != mounts[i].destination {
          if j > 0 { assert rest[j - 1] == mounts[j]; }
        }
      }
    }
  }

  /** The binds added to the user's are, in the order of the mounts, one for each volume mount that
      has a name and a place nothing else takes: of that volume, at that place, and read-only exactly
      if the mount was. */
  lemma AddedBindsExactly(mounts: seq<MountPoint>, userBinds: seq<string>, targets: seq<string>) returns (at: seq<nat>)
    requires Plain(mounts)
    ensures var added := Added(mounts, Covered(userBinds, targets));
      && |at| == |added|
      && (forall k :: 0 <= k < |at| ==> at[k] < |mounts| && BindsMount(added[k], mounts[at[k]]))
      && (forall j, k :: 0 <= j < k < |at| ==> at[j] < at[k])
      && (forall i: nat :: i < |mounts| ==> (i in at <==> Attaches(mounts, i, userBinds, targets)))
  {
    at := AddedBindMounts(mounts, Covered(userBinds, targets));
    hide BindsMount, Covered, Free;
    forall i: nat | i < |mounts|
      ensures FirstOpen(mounts, i, Covered(userBinds, targets)) <==> Attaches(mounts, i, userBinds, targets)
    {
      FreeExactly(mounts[i].destination, userBinds, targets);
    }
  }
}
