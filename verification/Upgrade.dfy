/** Recreating a container on its new image, or putting everything back
    (internal/agent/upgrade.go, upgradeCLI). */
module Upgrade {
  import opened Base
  import opened Rebase
  import opened Volumes
  import opened Networks
  import opened Daemon

  // What inspecting a container tells; fields Docker may leave out are optional.
  datatype Inspect = Inspect(id: string, name: string, image: string, running: Option<bool>,
                             config: Option<Config>, host: Option<HostConfig>,
                             mounts: seq<MountPoint>, nets: Option<map<string, Option<Endpoint>>>)

  /** The response is about the container as it is. */
  ghost predicate Reports(cs: Containers, info: Inspect) {
    && info.id in cs
    && info.name == "/" + cs[info.id].name
    && info.running == Some(cs[info.id].running)
    && (info.config.Some? ==> info.config.value == cs[info.id].config)
    && (info.host.Some? ==> info.host.value == cs[info.id].host)
    && (info.nets.Some? ==> info.nets.value == map n | n in cs[info.id].nets :: Some(cs[info.id].nets[n]))
  }

  datatype Reason = NoConfig | NotTagged | PullFailed | ImageMissing | AlreadyLatest | RenameFailed

  datatype Stage = Creating | Connecting | Stopping | Starting

  // Every way the upgrade ends. leftover: the old container could not be removed.
  datatype Result =
    | Untouched(reason: Reason)
    | Upgraded(newId: string, leftover: bool)
    | RolledBack(stage: Stage)
    | Incomplete(stage: Stage)

  function ShortId(id: string): string {
    if |id| > 12 then id[..12] else id
  }

  function NewConfig(info: Inspect, cfg: Config, oldDefaults: Option<Defaults>, newDefaults: Option<Defaults>): Config {
    var c := Refreshed(cfg, oldDefaults, newDefaults);
    if c.hostname == ShortId(info.id) then c.(hostname := "") else c
  }

  ghost function NewHost(info: Inspect, host: HostConfig): HostConfig {
    host.(binds := host.binds + Added(info.mounts, Covered(host.binds, host.mountTargets)))
  }

  /** The container the upgrade is to end with. */
  ghost function Replacement(cs: Containers, info: Inspect, oldDefaults: Option<Defaults>, image: Image): Container
    requires Reports(cs, info) && info.config.Some? && info.host.Some?
  {
    var cfg := NewConfig(info, info.config.value, oldDefaults, image.defaults);
    var host := NewHost(info, info.host.value);
    Container(cs[info.id].name, image.id, cs[info.id].running,
              if image.defaults.Some? then Merge(cfg, image.defaults.value) else cfg,
              host, NetsAfter(host.mode, info.nets, ShortId(info.id)))
  }

  // ---------------------------------------------------------------- states on the way

  predicate SameContainer(a: Container, b: Container) {
    a.(name := b.name, running := b.running) == b
  }

  /** Every other container is as it was, the old one is at most renamed or stopped, and there
      is at most one new one. */
  ghost predicate OthersKept(cs: Containers, before: Containers, id: string) {
    && (forall k :: k in before && k != id ==> k in cs && cs[k] == before[k])
    && (id in cs && id in before ==> SameContainer(cs[id], before[id]))
    && (forall a, b :: a in cs && b in cs && a !in before && b !in before ==> a == b)
  }

  /** The old container exists, or the finished replacement does. */
  ghost predicate ServiceKept(cs: Containers, before: Containers, id: string, plan: Container) {
    id in cs || exists n :: n in cs && n !in before && cs[n] == plan
  }

  ghost predicate Fine(cs: Containers, before: Containers, id: string, plan: Container) {
    OthersKept(cs, before, id) && ServiceKept(cs, before, id, plan)
  }

  /** Every state since position from is fine. */
  ghost predicate FineSince(history: seq<Containers>, from: nat, before: Containers, id: string, plan: Container) {
    forall i :: from <= i < |history| ==> Fine(history[i], before, id, plan)
  }

  lemma FineOneMore(history: seq<Containers>, from: nat, before: Containers, id: string, plan: Container, cs: Containers)
    requires FineSince(history, from, before, id, plan) && Fine(cs, before, id, plan)
    ensures FineSince(history + [cs], from, before, id, plan)
  {
  }

  ghost predicate OldKept(cs: Containers, before: Containers, id: string) {
    id in before && id in cs && OthersKept(cs, before, id)
  }

  lemma OldKeptIsFine(cs: Containers, before: Containers, id: string, plan: Container)
    requires OldKept(cs, before, id)
    ensures Fine(cs, before, id, plan)
  {
  }

  // ---------------------------------------------------------------- single calls

  lemma RemoveNew(cs: Containers, cs': Containers, ok: bool, before: Containers, id: string, newId: string)
    requires OldKept(cs, before, id) && newId !in before && newId in cs
    requires exists f :: (cs', ok) == Removed(cs, newId, true, f)
    ensures OldKept(cs', before, id) && cs'[id] == cs[id]
    ensures ok ==> cs'.Keys == before.Keys
  {
  }

  lemma RenameOld(cs: Containers, cs': Containers, ok: bool, before: Containers, id: string, name: string)
    requires OldKept(cs, before, id)
    requires exists f :: (cs', ok) == Renamed(cs, id, name, f)
    ensures OldKept(cs', before, id) && cs'[id].running == cs[id].running && cs'.Keys == cs.Keys
    ensures ok ==> cs'[id].name == name
  {
  }

  lemma SwitchOld(cs: Containers, cs': Containers, ok: bool, before: Containers, id: string, running: bool)
    requires OldKept(cs, before, id)
    requires exists f :: (cs', ok) == Switched(cs, id, running, f)
    ensures OldKept(cs', before, id) && cs'[id].name == cs[id].name && cs'.Keys == cs.Keys
    ensures ok ==> cs'[id].running == running
  {
  }

  lemma NameIsFree(cs: Containers, before: Containers, id: string)
    requires OldKept(cs, before, id) && cs.Keys == before.Keys && UniqueNames(before) && cs[id].name != before[id].name
    ensures NameFree(cs, before[id].name)
  {
  }

  lemma Restored(cs: Containers, before: Containers, id: string)
    requires OldKept(cs, before, id) && cs.Keys == before.Keys
    requires cs[id].name == before[id].name && cs[id].running == before[id].running
    ensures cs == before
  {
  }

  // ---------------------------------------------------------------- rollback

  /** Removes the new container, gives the old one its name back and, if it was stopped, starts
      it; each step is tried whatever became of the ones before. */
  method Rollback(api: Docker, id: string, name: string, newId: Option<string>, oldStopped: bool,
                  ghost before: Containers, ghost plan: Container, ghost from: nat) returns (complete: bool)
    requires OldKept(api.containers, before, id) && before[id].name == name
    requires newId.Some? ==> newId.value !in before && newId.value in api.containers
    requires newId.None? ==> api.containers.Keys == before.Keys
    requires if oldStopped then before[id].running else api.containers[id].running == before[id].running
    requires from <= |api.history| && FineSince(api.history, from, before, id, plan)
    modifies api`containers, api`calls, api`history
    ensures OldKept(api.containers, before, id)
    ensures complete ==> api.containers == before
    ensures api.WorksFrom(old(api.calls)) && UniqueNames(before) && old(api.containers)[id].name != name ==> complete
    ensures old(api.history) <= api.history && FineSince(api.history, from, before, id, plan)
  {
    ghost var oldName := api.containers[id].name;
    hide OldKept, FineSince, Fine;
    complete := true;
    ghost var cs := api.containers;
    if newId.Some? {
      ghost var h := api.history;
      complete := api.ContainerRemove(newId.value, true);
      RemoveNew(cs, api.containers, complete, before, id, newId.value);
      OldKeptIsFine(api.containers, before, id, plan);
      FineOneMore(h, from, before, id, plan, api.containers);
    }
    cs := api.containers;
    ghost var h := api.history;
    if complete && UniqueNames(before) && oldName != name {
      NameIsFree(cs, before, id);
    }
    var ok := api.ContainerRename(id, name);
    RenameOld(cs, api.containers, ok, before, id, name);
    OldKeptIsFine(api.containers, before, id, plan);
    FineOneMore(h, from, before, id, plan, api.containers);
    complete := complete && ok;
    if oldStopped {
      cs, h := api.containers, api.history;
      ok := api.ContainerStart(id);
      SwitchOld(cs, api.containers, ok, before, id, true);
      OldKeptIsFine(api.containers, before, id, plan);
      FineOneMore(h, from, before, id, plan, api.containers);
      complete := complete && ok;
    }
    if complete {
      Restored(api.containers, before, id);
    }
  }

  lemma NothingSince(history: seq<Containers>, before: Containers, id: string, plan: Container)
    ensures FineSince(history, |history|, before, id, plan)
  {
  }

  // ---------------------------------------------------------------- recreate

  /** The new container beside the renamed old one. */
  ghost function Beside(before: Containers, id: string, backup: string, oldRunning: bool, newId: string, c: Container): Containers
    requires id in before
  {
    before[id := before[id].(name := backup, running := oldRunning)][newId := c]
  }

  lemma BesideIsKept(before: Containers, id: string, backup: string, oldRunning: bool, newId: string, c: Container)
    requires id in before && newId !in before
    ensures OldKept(Beside(before, id, backup, oldRunning, newId, c), before, id)
    ensures newId in Beside(before, id, backup, oldRunning, newId, c)
    ensures Beside(before, id, backup, oldRunning, newId, c)[id].running == oldRunning
  {
  }

  lemma ConnectOne(cs: Containers, cs': Containers, ok: bool, before: Containers, id: string, backup: string,
                   newId: string, c: Container, joined: Nets, net: string, ep: Endpoint)
    requires id in before && newId !in before
    requires cs == Beside(before, id, backup, before[id].running, newId, c.(nets := c.nets + joined))
    requires exists f :: (cs', ok) == Connected(cs, net, newId, ep, f)
    ensures cs' == Beside(before, id, backup, before[id].running, newId,
                          c.(nets := c.nets + if ok then joined[net := ep] else joined))
    ensures OldKept(cs', before, id) && newId in cs' && cs'[id].running == before[id].running && cs'[id].name == backup
  {
    assert c.nets + joined[net := ep] == (c.nets + joined)[net := ep];
    BesideIsKept(before, id, backup, before[id].running, newId, c.(nets := c.nets + if ok then joined[net := ep] else joined));
  }

  /** Connects the extra networks in any order, up to the first that fails. */
  method ConnectAll(api: Docker, newId: string, extra: Nets, ghost before: Containers, ghost id: string,
                    ghost backup: string, ghost c: Container, ghost plan: Container, ghost from: nat) returns (ok: bool)
    requires id in before && newId !in before
    requires api.containers == Beside(before, id, backup, before[id].running, newId, c)
    requires c.nets.Keys !! extra.Keys
    requires from <= |api.history| && FineSince(api.history, from, before, id, plan)
    modifies api`containers, api`calls, api`history
    ensures ok ==> api.containers == Beside(before, id, backup, before[id].running, newId, c.(nets := c.nets + extra))
    ensures !ok ==> OldKept(api.containers, before, id) && newId in api.containers
    ensures api.containers[id].running == before[id].running && api.containers[id].name == backup
    ensures api.calls >= old(api.calls)
    ensures api.WorksFrom(old(api.calls)) ==> ok
    ensures api.AtMostOneFault() && !ok ==> api.WorksFrom(api.calls)
    ensures old(api.history) <= api.history && FineSince(api.history, from, before, id, plan)
  {
    hide OldKept, FineSince, Fine;
    var todo := extra.Keys;
    ghost var joined: Nets := map[];
    assert c.(nets := c.nets + joined) == c;
    while todo != {}
      invariant todo <= extra.Keys && joined == map n | n in extra && n !in todo :: extra[n]
      invariant api.containers == Beside(before, id, backup, before[id].running, newId, c.(nets := c.nets + joined))
      invariant old(api.history) <= api.history && FineSince(api.history, from, before, id, plan)
      invariant api.calls >= old(api.calls)
      decreases todo
    {
      var net :| net in todo;
      todo := todo - {net};
      ghost var cs, h := api.containers, api.history;
      var connected := api.NetworkConnect(net, newId, extra[net]);
      ConnectOne(cs, api.containers, connected, before, id, backup, newId, c, joined, net, extra[net]);
      OldKeptIsFine(api.containers, before, id, plan);
      FineOneMore(h, from, before, id, plan, api.containers);
      if !connected {
        return false;
      }
      joined := joined[net := extra[net]];
    }
    assert joined == extra;
    ok := true;
  }

  /** Removing the old container once the replacement is complete keeps the service. */
  lemma RemoveOld(cs: Containers, cs': Containers, ok: bool, before: Containers, id: string, backup: string, newId: string, plan: Container)
    requires id in before && newId !in before
    requires cs == Beside(before, id, backup, false, newId, plan)
    requires exists f :: (cs', ok) == Removed(cs, id, false, f)
    ensures cs' == (if ok then (before - {id})[newId := plan] else Beside(before, id, backup, false, newId, plan))
    ensures Fine(cs', before, id, plan)
  {
  }

  /** From the renamed old container to the replacement, or back. */
  method Recreate(api: Docker, id: string, name: string, backup: string, cfg: Config, host: HostConfig, split: Split,
                  wasRunning: bool, ghost before: Containers, ghost plan: Container, ghost from: nat) returns (r: Result)
    requires id in before && before[id].name == name && before[id].running == wasRunning
    requires api.containers == before[id := before[id].(name := backup)]
    requires cfg.image in api.images && Attached(host.mode, split.atCreate).Keys !! split.extra.Keys
    requires plan == Created(before, api.images, name, cfg, host, split.atCreate)
                       .(running := wasRunning, nets := Attached(host.mode, split.atCreate) + split.extra)
    requires from <= |api.history| && FineSince(api.history, from, before, id, plan)
    modifies api`containers, api`calls, api`history
    ensures !r.Untouched?
    ensures r.Upgraded? ==> Replaced(api.containers, before, id, backup, r.newId, r.leftover, plan)
    ensures r.RolledBack? ==> api.containers == before
    ensures r.Incomplete? ==> OldKept(api.containers, before, id)
    ensures api.FreshIds(before) && UniqueNames(before) && backup != name ==>
      && (api.WorksFrom(old(api.calls)) ==> r.Upgraded? && !r.leftover)
      && (api.AtMostOneFault() ==> !r.Incomplete?)
    ensures old(api.history) <= api.history && FineSince(api.history, from, before, id, plan)
  {
    hide OldKept, FineSince, Fine;
    ghost var h := api.history;
    RenamedIsKept(before, id, backup);
    NameIsFreed(before, id, backup);
    var created := api.ContainerCreate(cfg, host, split.atCreate, name);
    if created.None? {
      OldKeptIsFine(api.containers, before, id, plan);
      FineOneMore(h, from, before, id, plan, api.containers);
      var complete := Rollback(api, id, name, None, false, before, plan, from);
      return if complete then RolledBack(Creating) else Incomplete(Creating);
    }
    var newId := created.value;
    ghost var c := plan.(running := false, nets := Attached(host.mode, split.atCreate));
    assert api.containers == Beside(before, id, backup, before[id].running, newId, c);
    BesideIsKept(before, id, backup, before[id].running, newId, c);
    OldKeptIsFine(api.containers, before, id, plan);
    FineOneMore(h, from, before, id, plan, api.containers);
    var connected := ConnectAll(api, newId, split.extra, before, id, backup, c, plan, from);
    if !connected {
      var complete := Rollback(api, id, name, Some(newId), false, before, plan, from);
      return if complete then RolledBack(Connecting) else Incomplete(Connecting);
    }
    r := Swap(api, id, name, backup, newId, wasRunning, before, plan, from);
  }

  /** Stops the old container, starts the connected new one, and removes the old one. */
  method Swap(api: Docker, id: string, name: string, backup: string, newId: string, wasRunning: bool,
              ghost before: Containers, ghost plan: Container, ghost from: nat) returns (r: Result)
    requires id in before && before[id].name == name && before[id].running == wasRunning && newId !in before
    requires api.containers == Beside(before, id, backup, wasRunning, newId, plan.(running := false))
    requires plan.running == wasRunning
    requires from <= |api.history| && FineSince(api.history, from, before, id, plan)
    modifies api`containers, api`calls, api`history
    ensures !r.Untouched?
    ensures r.Upgraded? ==> Replaced(api.containers, before, id, backup, r.newId, r.leftover, plan)
    ensures r.RolledBack? ==> api.containers == before
    ensures r.Incomplete? ==> OldKept(api.containers, before, id)
    ensures api.WorksFrom(old(api.calls)) ==> r.Upgraded? && !r.leftover
    ensures UniqueNames(before) && backup != name && api.AtMostOneFault() ==> !r.Incomplete?
    ensures old(api.history) <= api.history && FineSince(api.history, from, before, id, plan)
  {
    hide OldKept, FineSince, Fine;
    BesideIsKept(before, id, backup, wasRunning, newId, plan.(running := false));
    if wasRunning {
      ghost var cs, h := api.containers, api.history;
      var stopped := api.ContainerStop(id);
      SwitchOld(cs, api.containers, stopped, before, id, false);
      OldKeptIsFine(api.containers, before, id, plan);
      FineOneMore(h, from, before, id, plan, api.containers);
      if !stopped {
        var complete := Rollback(api, id, name, Some(newId), true, before, plan, from);
        return if complete then RolledBack(Stopping) else Incomplete(Stopping);
      }
      assert api.containers == Beside(before, id, backup, false, newId, plan.(running := false));
      h := api.history;
      var started := api.ContainerStart(newId);
      assert exists running :: api.containers == Beside(before, id, backup, false, newId, plan.(running := running)) && (started ==> running);
      ghost var running :| api.containers == Beside(before, id, backup, false, newId, plan.(running := running)) && (started ==> running);
      BesideIsKept(before, id, backup, false, newId, plan.(running := running));
      OldKeptIsFine(api.containers, before, id, plan);
      FineOneMore(h, from, before, id, plan, api.containers);
      if !started {
        var complete := Rollback(api, id, name, Some(newId), true, before, plan, from);
        return if complete then RolledBack(Starting) else Incomplete(Starting);
      }
    }
    assert api.containers == Beside(before, id, backup, false, newId, plan);
    ghost var cs, h := api.containers, api.history;
    var removed := api.ContainerRemove(id, false);
    RemoveOld(cs, api.containers, removed, before, id, backup, newId, plan);
    FineOneMore(h, from, before, id, plan, api.containers);
    r := Upgraded(newId, !removed);
  }

  ghost predicate Replaced(cs: Containers, before: Containers, id: string, backup: string, newId: string, leftover: bool, plan: Container) {
    && id in before && newId !in before
    && cs == if leftover then Beside(before, id, backup, false, newId, plan) else (before - {id})[newId := plan]
  }

  lemma NameIsFreed(before: Containers, id: string, backup: string)
    requires id in before
    ensures UniqueNames(before) && backup != before[id].name ==>
      NameFree(before[id := before[id].(name := backup)], before[id].name)
  {
  }

  lemma RenamedIsKept(before: Containers, id: string, backup: string)
    requires id in before
    ensures var cs := before[id := before[id].(name := backup)];
      OldKept(cs, before, id) && cs.Keys == before.Keys && cs[id].running == before[id].running
  {
  }

  // ---------------------------------------------------------------- the upgrade

  predicate Tagged(imageName: string) {
    !(imageName == "" || "sha256:" <= imageName)
  }

  /** The container was created from a tag under which the registry now has another image. */
  predicate Upgradable(info: Inspect, registry: map<string, Image>) {
    && info.config.Some? && info.host.Some?
    && Tagged(info.config.value.image)
    && info.config.value.image in registry
    && registry[info.config.value.image].id != info.image
  }

  /** What is found out before the container is touched: why not to go on, or the image defaults
      the old container inherited, where they can be read, and the new image. */
  method FindImages(api: Docker, info: Inspect) returns (reason: Option<Reason>, defaults: Option<Defaults>, image: Image)
    modifies api`images, api`calls
    ensures reason.None? ==> info.config.Some? && info.host.Some? && info.config.value.image in api.images
    ensures reason.None? ==> image == api.images[info.config.value.image] && image.id != info.image
    ensures defaults.Some? ==> info.image in old(api.images) && defaults == old(api.images)[info.image].defaults
    ensures reason == Some(NoConfig) <==> info.config.None? || info.host.None?
    ensures reason == Some(NotTagged) <==> info.config.Some? && info.host.Some? && !Tagged(info.config.value.image)
    ensures reason == Some(AlreadyLatest) ==> info.config.value.image in api.images && api.images[info.config.value.image].id == info.image
    ensures api.calls >= old(api.calls)
    ensures api.WorksFrom(old(api.calls)) && Upgradable(info, api.registry) ==> reason.None? && image == api.registry[info.config.value.image]
    ensures api.WorksFrom(old(api.calls)) && Upgradable(info, api.registry) && info.image in old(api.images) ==>
      defaults == old(api.images)[info.image].defaults
  {
    reason, defaults, image := Some(NoConfig), None, Image("", None);
    if info.config.None? || info.host.None? {
      return;
    }
    var imageName := info.config.value.image;
    if !Tagged(imageName) {
      reason := Some(NotTagged);
      return;
    }
    var oldImage := api.ImageInspect(info.image);
    if oldImage.Some? {
      defaults := oldImage.value.defaults;
    }
    var pulled := api.ImagePull(imageName);
    if !pulled {
      reason := Some(PullFailed);
      return;
    }
    var newImage := api.ImageInspect(imageName);
    if newImage.None? {
      reason := Some(ImageMissing);
      return;
    }
    image := newImage.value;
    reason := if image.id == info.image then Some(AlreadyLatest) else None;
  }

  /** The settings to create the new container with. */
  method Design(info: Inspect, config: Config, hostConfig: HostConfig, defaults: Option<Defaults>, image: Image)
    returns (cfg: Config, host: HostConfig, split: Split)
    ensures cfg == NewConfig(info, config, defaults, image.defaults)
    ensures host == NewHost(info, hostConfig)
    ensures split == SplitOf(host.mode, info.nets, ShortId(info.id))
  {
    cfg := RefreshImageDefaults(config, defaults, image.defaults);
    if cfg.hostname == ShortId(info.id) {
      cfg := cfg.(hostname := "");
    }
    var binds := PreserveAnonymousVolumes(info.mounts, hostConfig.binds, hostConfig.mountTargets);
    host := hostConfig.(binds := binds);
    split := SplitNetworks(host.mode, info.nets, ShortId(info.id));
  }

  function BackupName(info: Inspect, stamp: string): string
    requires "/" <= info.name
  {
    info.name[1..] + "-sddb-old-" + stamp
  }

  lemma SplitIsDisjoint(mode: string, nets: Option<map<string, Option<Endpoint>>>, shortId: string)
    ensures var s := SplitOf(mode, nets, shortId); Attached(mode, s.atCreate).Keys !! s.extra.Keys
  {
  }

  /** Ends in one of four ways, however the calls go: nothing touched; the replacement in place
      under the old name, the old container removed or left stopped under its backup name;
      everything as before; or, where undoing failed too, the old container still there. At no
      moment on the way are the old container and the finished replacement both missing, and
      no other container is ever affected. If every call works the upgrade goes through, and if
      only one fails nothing is left half done. The response was taken just before. */
  method UpgradeCLI(api: Docker, info: Inspect, stamp: string)
    returns (r: Result, ghost defaults: Option<Defaults>, ghost plan: Container)
    requires Reports(api.containers, info)
    modifies api
    ensures old(api.history) <= api.history
    ensures r.Untouched? ==> api.containers == old(api.containers)
    ensures r.Untouched? ==> forall i :: |old(api.history)| <= i < |api.history| ==> api.history[i] == old(api.containers)
    ensures !r.Untouched? ==> Planned(old(api.containers), info, api.images, old(api.images), defaults, plan)
    ensures !r.Untouched? ==> FineSince(api.history, |old(api.history)|, old(api.containers), info.id, plan)
    ensures r.Upgraded? ==>
      Replaced(api.containers, old(api.containers), info.id, BackupName(info, stamp), r.newId, r.leftover, plan)
    ensures r.RolledBack? ==> api.containers == old(api.containers)
    ensures r.Incomplete? ==> OldKept(api.containers, old(api.containers), info.id)
    ensures api.FreshIds(old(api.containers)) && UniqueNames(old(api.containers)) && api.WorksFrom(old(api.calls))
              && Upgradable(info, api.registry) && NameFree(old(api.containers), BackupName(info, stamp))
            ==> r.Upgraded? && !r.leftover
                && (info.image in old(api.images) ==> defaults == old(api.images)[info.image].defaults)
    ensures api.FreshIds(old(api.containers)) && UniqueNames(old(api.containers)) && api.AtMostOneFault() ==> !r.Incomplete?
  {
    ghost var before := api.containers;
    var name := info.name[1..];
    assert name == before[info.id].name;
    plan := before[info.id];
    var reason, oldDefaults, image := FindImages(api, info);
    defaults := oldDefaults;
    if reason.Some? {
      return Untouched(reason.value), defaults, plan;
    }
    var cfg, host, split := Design(info, info.config.value, info.host.value, oldDefaults, image);
    var wasRunning := info.running == Some(true);
    plan := Replacement(before, info, oldDefaults, image);

    hide FineSince, Fine, OldKept, NewConfig, NewHost, SplitOf;
    ghost var from, h := |api.history|, api.history;
    var backup := BackupName(info, stamp);
    var renamed := api.ContainerRename(info.id, backup);
    if !renamed {
      return Untouched(RenameFailed), defaults, plan;
    }
    NothingSince(h, before, info.id, plan);
    RenamedIsKept(before, info.id, backup);
    OldKeptIsFine(api.containers, before, info.id, plan);
    FineOneMore(h, from, before, info.id, plan, api.containers);
    SplitIsDisjoint(host.mode, info.nets, ShortId(info.id));
    r := Recreate(api, info.id, name, backup, cfg, host, split, wasRunning, before, plan, from);
  }

  /** The replacement was worked out from the response, the old image's defaults if they could
      be read, and the image the pull brought. */
  ghost predicate Planned(before: Containers, info: Inspect, images: map<string, Image>, imagesBefore: map<string, Image>,
                          oldDefaults: Option<Defaults>, plan: Container) {
    && Reports(before, info) && info.config.Some? && info.host.Some?
    && info.config.value.image in images
    && (oldDefaults.Some? ==> info.image in imagesBefore && oldDefaults == imagesBefore[info.image].defaults)
    && plan == Replacement(before, info, oldDefaults, images[info.config.value.image])
    && images[info.config.value.image].id != info.image
  }

  // ---------------------------------------------------------------- what the replacement is

  /** A container that was created from the user's settings on the old image, restating none of
      its defaults, is replaced by what those settings give on the new image; a host name that
      was only the old container's ID is left for the new one to choose. */
  lemma ReplacementKeepsUserSettings(before: Containers, info: Inspect, u: Config, prior: Defaults, image: Image)
    requires Reports(before, info) && info.config.Some? && info.host.Some?
    requires before[info.id].config == Merge(u, prior) && NothingRestated(u, prior) && image.defaults.Some?
    ensures Replacement(before, info, Some(prior), image).config ==
      Merge(u.(hostname := if u.hostname == ShortId(info.id) then "" else u.hostname), image.defaults.value)
  {
    RebaseLaw(u, prior, image.defaults.value);
  }

  /** Its networks are the old container's, with the old short-ID alias dropped, exactly when the
      primary network of its mode was among them. */
  lemma ReplacementKeepsNetworks(before: Containers, info: Inspect, defaults: Option<Defaults>, image: Image)
    requires Reports(before, info) && info.config.Some? && info.host.Some? && info.nets.Some?
    requires !Managed(before[info.id].host.mode)
    ensures var nets := before[info.id].nets;
      Replacement(before, info, defaults, image).nets == (map n | n in nets :: Cleaned(nets[n], ShortId(info.id)))
      <==> Primary(before[info.id].host.mode) in nets
  {
    var nets := before[info.id].nets;
    SameNetworksExactly(before[info.id].host.mode, info.nets.value, ShortId(info.id));
    assert CleanAll(info.nets.value, ShortId(info.id)) == map n | n in nets :: Cleaned(nets[n], ShortId(info.id));
  }

  /** On each of them the user's endpoint settings are as they were: the addresses asked for, links,
      driver options, priority, and all aliases but the first twelve characters of the old ID. */
  lemma ReplacementKeepsEndpoints(before: Containers, info: Inspect, defaults: Option<Defaults>, image: Image, n: string)
    requires Reports(before, info) && info.config.Some? && info.host.Some? && info.nets.Some?
    requires var mode := before[info.id].host.mode;
      mode != "host" && mode != "none" && !("container:" <= mode)
    requires n in before[info.id].nets && n in Replacement(before, info, defaults, image).nets
    ensures SettingsKept(before[info.id].nets[n], Replacement(before, info, defaults, image).nets[n],
                         if |info.id| <= 12 then info.id else info.id[..12])
  {
    EndpointsKept(before[info.id].host.mode, info.nets.value, ShortId(info.id), n);
  }

  /** If the old image cannot be read, or the new one has no defaults to offer, nothing is taken for
      a default: the configuration goes over as it is, but for a host name that was the old ID. */
  lemma UnreadableDefaultsKeepConfig(before: Containers, info: Inspect, defaults: Option<Defaults>, image: Image)
    requires Reports(before, info) && info.config.Some? && info.host.Some? && (defaults.None? || image.defaults.None?)
    ensures var was := before[info.id].config;
      var kept := was.(hostname := if was.hostname == (if |info.id| <= 12 then info.id else info.id[..12]) then "" else was.hostname);
      Replacement(before, info, defaults, image).config ==
        if image.defaults.Some? then Merge(kept, image.defaults.value) else kept
  {
  }

  /** An image ID, or nothing, is no tag to upgrade by. */
  lemma TaggedExactly(imageName: string)
    ensures Tagged(imageName) <==> imageName != "" && !(|imageName| >= 7 && imageName[..7] == "sha256:")
  {
  }

  /** The replacement runs exactly if the old one did, under its name, and keeps its host settings:
      network mode, mounts, and the user's binds, to which volumes may be added. */
  lemma ReplacementKeepsHost(before: Containers, info: Inspect, defaults: Option<Defaults>, image: Image)
    requires Reports(before, info) && info.config.Some? && info.host.Some?
    ensures var was, next := before[info.id], Replacement(before, info, defaults, image);
      && next.name == was.name && next.running == was.running && next.image == image.id
      && next.host.mode == was.host.mode && next.host.mountTargets == was.host.mountTargets
      && was.host.binds <= next.host.binds
  {
  }
}
