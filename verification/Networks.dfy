/** Which networks a recreated container joins (internal/agent/upgrade.go, splitNetworks), and
    what Docker makes of the answer. */
module Networks {
  import opened Base

  // runtime stands for what the daemon fills in: addresses, endpoint IDs and the like.
  datatype Endpoint = Endpoint(ipam: string, links: seq<string>, driverOpts: string, gwPriority: int,
                               aliases: seq<string>, runtime: string)

  type Nets = map<string, Endpoint>

  function WithoutAlias(aliases: seq<string>, alias: string): seq<string> {
    if aliases == [] then []
    else (if aliases[0] == alias then [] else [aliases[0]]) + WithoutAlias(aliases[1..], alias)
  }

  lemma {:induction false} WithoutAliasSplit(a: seq<string>, b: seq<string>, alias: string)
    ensures WithoutAlias(a + b, alias) == WithoutAlias(a, alias) + WithoutAlias(b, alias)
  {
    if a == [] {
      assert a + b == b;
    } else {
      assert (a + b)[1..] == a[1..] + b;
      WithoutAliasSplit(a[1..], b, alias);
    }
  }

  /** User settings kept, the container's short-ID alias and runtime fields dropped. */
  function Cleaned(ep: Endpoint, shortId: string): Endpoint {
    ep.(aliases := WithoutAlias(ep.aliases, shortId), runtime := "")
  }

  lemma {:induction false} ShortIdIsDropped(aliases: seq<string>, shortId: string, a: string)
    ensures a in WithoutAlias(aliases, shortId) <==> a in aliases && a != shortId
  {
    if aliases != [] {
      ShortIdIsDropped(aliases[1..], shortId, a);
    }
  }

  method CleanEndpoint(ep: Endpoint, shortId: string) returns (clean: Endpoint)
    ensures clean == Cleaned(ep, shortId)
  {
    var aliases: seq<string> := [];
    for i := 0 to |ep.aliases|
      invariant aliases == WithoutAlias(ep.aliases[..i], shortId)
    {
      assert ep.aliases[..i + 1] == ep.aliases[..i] + [ep.aliases[i]];
      WithoutAliasSplit(ep.aliases[..i], [ep.aliases[i]], shortId);
      if ep.aliases[i] != shortId {
        aliases := aliases + [ep.aliases[i]];
      }
    }
    assert ep.aliases[..|ep.aliases|] == ep.aliases;
    clean := Endpoint(ep.ipam, ep.links, ep.driverOpts, ep.gwPriority, aliases, "");
  }

  /** Modes in which the daemon, not the caller, decides about endpoints. */
  predicate Managed(mode: string) {
    mode == "host" || mode == "none" || "container:" <= mode
  }

  function Primary(mode: string): string {
    if mode == "" || mode == "default" then "bridge" else mode
  }

  function CleanAll(nets: map<string, Option<Endpoint>>, shortId: string): Nets {
    map n | n in nets && nets[n].Some? :: Cleaned(nets[n].value, shortId)
  }

  // What ContainerCreate is given (None: no networking config) and what is connected after it.
  datatype Split = Split(atCreate: Option<Nets>, extra: Nets)

  function SplitOf(mode: string, nets: Option<map<string, Option<Endpoint>>>, shortId: string): Split {
    if Managed(mode) || nets.None? || nets.value == map[] then Split(None, map[])
    else
      var clean := CleanAll(nets.value, shortId);
      Split(Some(map n | n in clean && n == Primary(mode) :: clean[n]),
            map n | n in clean && n != Primary(mode) :: clean[n])
  }

  method SplitNetworks(mode: string, nets: Option<map<string, Option<Endpoint>>>, shortId: string) returns (r: Split)
    ensures r == SplitOf(mode, nets, shortId)
  {
    if Managed(mode) || nets.None? || nets.value == map[] {
      return Split(None, map[]);
    }
    var primary := Primary(mode);
    var atCreate: Nets, extra: Nets := map[], map[];
    var todo := nets.value.Keys;
    while todo != {}
      invariant todo <= nets.value.Keys
      invariant forall n :: n in atCreate <==> n in CleanAll(nets.value, shortId) && n !in todo && n == primary
      invariant forall n :: n in extra <==> n in CleanAll(nets.value, shortId) && n !in todo && n != primary
      invariant forall n :: n in atCreate ==> atCreate[n] == CleanAll(nets.value, shortId)[n]
      invariant forall n :: n in extra ==> extra[n] == CleanAll(nets.value, shortId)[n]
      decreases todo
    {
      var name :| name in todo;
      todo := todo - {name};
      var ep := nets.value[name];
      if ep.None? {
        continue;
      }
      var clean := CleanEndpoint(ep.value, shortId);
      if name == primary {
        atCreate := atCreate[name := clean];
      } else {
        extra := extra[name := clean];
      }
    }
    ghost var clean := CleanAll(nets.value, shortId);
    assert atCreate == map n | n in clean && n == primary :: clean[n];
    assert extra == map n | n in clean && n != primary :: clean[n];
    r := Split(Some(atCreate), extra);
  }

  // ---------------------------------------------------------------- endpoints, field by field

  /** kept is all without the entries equal to drop, in the same order: at, increasing, tells where
      each kept entry was. */
  ghost predicate KeptAt(all: seq<string>, kept: seq<string>, drop: string, at: seq<nat>) {
    && |at| == |kept|
    && (forall j :: 0 <= j < |at| ==> at[j] < |all| && kept[j] == all[at[j]])
    && (forall i, j :: 0 <= i < j < |at| ==> at[i] < at[j])
    && (forall i: nat :: i < |all| ==> (all[i] != drop <==> i in at))
  }

  /** The user's settings are as they were, nothing the daemon filled in is left, and of the
      aliases only the short ID is gone. */
  ghost predicate SettingsKept(was: Endpoint, ep: Endpoint, shortId: string) {
    && ep.ipam == was.ipam && ep.links == was.links
    && ep.driverOpts == was.driverOpts && ep.gwPriority == was.gwPriority
    && ep.runtime == ""
    && exists at :: KeptAt(was.aliases, ep.aliases, shortId, at)
  }

  lemma {:induction false} AliasesKept(aliases: seq<string>, drop: string) returns (at: seq<nat>)
    ensures KeptAt(aliases, WithoutAlias(aliases, drop), drop, at)
    decreases |aliases|
  {
    if aliases == [] {
      at := [];
    } else {
      var n := |aliases| - 1;
      at := AliasesKept(aliases[..n], drop);
      assert aliases == aliases[..n] + [aliases[n]];
      WithoutAliasSplit(aliases[..n], [aliases[n]], drop);
      var kept := WithoutAlias(aliases[..n], drop);
      assert WithoutAlias([aliases[n]], drop) == (if aliases[n] == drop then [] else [aliases[n]]) + WithoutAlias([], drop);
      hide KeptAt;
      if aliases[n] == drop {
        LastDropped(aliases[..n], kept, drop, at);
        assert kept + [] == kept;
      } else {
        LastKept(aliases[..n], aliases[n], kept, drop, at);
        at := at + [n];
      }
    }
  }

  lemma LastDropped(all: seq<string>, kept: seq<string>, drop: string, at: seq<nat>)
    requires KeptAt(all, kept, drop, at)
    ensures KeptAt(all + [drop], kept, drop, at)
  {
    forall i: nat | i < |all| + 1 ensures (all + [drop])[i] != drop <==> i in at {
      if i < |all| { assert (all + [drop])[i] == all[i]; }
    }
  }

  lemma LastKept(all: seq<string>, x: string, kept: seq<string>, drop: string, at: seq<nat>)
    requires KeptAt(all, kept, drop, at) && x != drop
    ensures KeptAt(all + [x], kept + [x], drop, at + [|all|])
  {
    forall i: nat | i < |all| + 1 ensures (all + [x])[i] != drop <==> i in at + [|all|] {
      if i < |all| { assert (all + [x])[i] == all[i]; }
    }
  }

  lemma CleanedKeepsSettings(ep: Endpoint, shortId: string)
    ensures SettingsKept(ep, Cleaned(ep, shortId), shortId)
  {
    var at := AliasesKept(ep.aliases, shortId);
  }

  /** Which networks the container is created on and which it joins later, from its mode alone, and
      what becomes of each endpoint. */
  lemma SplitExactly(mode: string, nets: map<string, Option<Endpoint>>, shortId: string)
    ensures var split, listed := SplitOf(mode, Some(nets), shortId), set n | n in nets && nets[n].Some?;
      if mode == "host" || mode == "none" || (|mode| >= 10 && mode[..10] == "container:") || nets == map[] then
        split == Split(None, map[])
      else
        var primary := if mode == "" || mode == "default" then "bridge" else mode;
        && split.atCreate.Some?
        && split.atCreate.value.Keys == listed * {primary} && split.extra.Keys == listed - {primary}
        && (forall n :: n in split.atCreate.value ==> SettingsKept(nets[n].value, split.atCreate.value[n], shortId))
        && (forall n :: n in split.extra ==> SettingsKept(nets[n].value, split.extra[n], shortId))
  {
    forall n | n in nets && nets[n].Some? ensures SettingsKept(nets[n].value, Cleaned(nets[n].value, shortId), shortId) {
      CleanedKeepsSettings(nets[n].value, shortId);
    }
    hide SettingsKept, Cleaned;
  }

  lemma SplitOfNothing(mode: string, shortId: string)
    ensures SplitOf(mode, None, shortId) == Split(None, map[])
  {
  }

  /** Wherever the recreated container is on one of its old networks, its settings there are the
      user's. */
  lemma EndpointsKept(mode: string, nets: map<string, Option<Endpoint>>, shortId: string, n: string)
    requires !Managed(mode) && n in NetsAfter(mode, Some(nets), shortId) && n in nets && nets[n].Some?
    ensures SettingsKept(nets[n].value, NetsAfter(mode, Some(nets), shortId)[n], shortId)
  {
    CleanedKeepsSettings(nets[n].value, shortId);
    var s, clean := SplitOf(mode, Some(nets), shortId), CleanAll(nets, shortId);
    assert n in clean;
    hide SettingsKept, Cleaned;
    assert if n == Primary(mode) then n in s.atCreate.value else n in s.extra;
  }

  // ---------------------------------------------------------------- what the daemon does

  const BARE := Endpoint("", [], "", 0, [], "")

  /** A container created without endpoints joins the network of its mode. */
  function Attached(mode: string, atCreate: Option<Nets>): Nets {
    if atCreate.Some? && atCreate.value != map[] then atCreate.value
    else if "container:" <= mode then map[]
    else map[Primary(mode) := BARE]
  }

  /** The networks a recreated container ends up on. */
  function NetsAfter(mode: string, nets: Option<map<string, Option<Endpoint>>>, shortId: string): Nets {
    var s := SplitOf(mode, nets, shortId);
    Attached(mode, s.atCreate) + s.extra
  }

  /** Outside the managed modes the recreated container is on exactly the old networks, with
      the user's endpoint settings, if and only if its primary network was among them; if it
      was not, Docker adds it. */
  lemma SameNetworksExactly(mode: string, nets: map<string, Option<Endpoint>>, shortId: string)
    requires !Managed(mode)
    ensures NetsAfter(mode, Some(nets), shortId) == CleanAll(nets, shortId) <==>
            Primary(mode) in nets && nets[Primary(mode)].Some?
    ensures NetsAfter(mode, Some(nets), shortId).Keys == CleanAll(nets, shortId).Keys + {Primary(mode)}
  {
    var clean, after := CleanAll(nets, shortId), NetsAfter(mode, Some(nets), shortId);
    var s := SplitOf(mode, Some(nets), shortId);
    if nets == map[] {
      assert after == map[Primary(mode) := BARE];
    } else if Primary(mode) in clean {
      assert Primary(mode) in s.atCreate.value;
    } else {
      assert s.atCreate.value == map[];
      assert Primary(mode) in after;
    }
  }

  /** A container that was moved off its mode's network is put back on it. */
  lemma MovedContainerRejoins(mode: string, other: string, ep: Endpoint, shortId: string)
    requires !Managed(mode) && other != Primary(mode)
    ensures NetsAfter(mode, Some(map[other := Some(ep)]), shortId)
         == map[Primary(mode) := BARE, other := Cleaned(ep, shortId)]
  {
    var nets := map[other := Some(ep)];
    assert other in nets;
    assert CleanAll(nets, shortId) == map[other := Cleaned(ep, shortId)];
    var s := SplitOf(mode, Some(nets), shortId);
    assert s.atCreate.Some? && s.atCreate.value == map[] && s.extra == map[other := Cleaned(ep, shortId)];
  }

  /** In a managed mode the recreated container is wherever the mode puts it, as the old was. */
  lemma ManagedNetworks(mode: string, nets: Option<map<string, Option<Endpoint>>>, shortId: string)
    requires Managed(mode)
    ensures NetsAfter(mode, nets, shortId).Keys == if "container:" <= mode then {} else {mode}
  {
  }
}
