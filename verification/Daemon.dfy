/** A Docker daemon as the upgrade sees it: containers by ID with unique names, and calls any of
    which may fail. */
module Daemon {
  import opened Base
  import opened Rebase
  import opened Networks

  datatype HostConfig = HostConfig(mode: string, binds: seq<string>, mountTargets: seq<string>)

  datatype Image = Image(id: string, defaults: Option<Defaults>)

  datatype Container = Container(name: string, image: string, running: bool, config: Config, host: HostConfig, nets: Nets)

  type Containers = map<string, Container>

  // How a call goes. A stop or start that fails may have taken effect all the same; any other
  // call that fails has no effect.
  datatype Fault = Works | FailsBefore | FailsAfter

  predicate NameFree(cs: Containers, name: string) {
    forall id <- cs :: cs[id].name != name
  }

  ghost predicate UniqueNames(cs: Containers) {
    forall a, b :: a in cs && b in cs && cs[a].name == cs[b].name ==> a == b
  }

  // ---------------------------------------------------------------- the effect of each call

  function Renamed(cs: Containers, id: string, name: string, f: Fault): (Containers, bool) {
    if f.Works? && id in cs && NameFree(cs, name) then (cs[id := cs[id].(name := name)], true) else (cs, false)
  }

  function Created(cs: Containers, images: map<string, Image>, name: string, cfg: Config, host: HostConfig,
                   atCreate: Option<Nets>): Container
    requires cfg.image in images
  {
    var image := images[cfg.image];
    Container(name, image.id, false, if image.defaults.Some? then Merge(cfg, image.defaults.value) else cfg,
              host, Attached(host.mode, atCreate))
  }

  function Connected(cs: Containers, net: string, id: string, ep: Endpoint, f: Fault): (Containers, bool) {
    if f.Works? && id in cs && net !in cs[id].nets then (cs[id := cs[id].(nets := cs[id].nets[net := ep])], true)
    else (cs, false)
  }

  function Switched(cs: Containers, id: string, running: bool, f: Fault): (Containers, bool) {
    if id !in cs || f.FailsBefore? then (cs, false)
    else (cs[id := cs[id].(running := running)], f.Works?)
  }

  function Removed(cs: Containers, id: string, force: bool, f: Fault): (Containers, bool) {
    if f.Works? && id in cs && (force || !cs[id].running) then (cs - {id}, true) else (cs, false)
  }

  // ---------------------------------------------------------------- the object

  class Docker {
    var containers: Containers
    var images: map<string, Image>
    var calls: nat
    const faults: nat -> Fault
    const registry: map<string, Image>
    const ids: nat -> string
    // Every state the containers went through.
    ghost var history: seq<Containers>

    constructor (containers: Containers, images: map<string, Image>, faults: nat -> Fault,
                 registry: map<string, Image>, ids: nat -> string)
      ensures this.containers == containers && this.images == images && history == [containers]
      ensures this.faults == faults && this.registry == registry && this.ids == ids
    {
      this.containers, this.images, calls, this.faults, this.registry, this.ids := containers, images, 0, faults, registry, ids;
      history := [containers];
    }

    /** Every call from number n on works. */
    ghost predicate WorksFrom(n: nat) {
      forall k :: k >= n ==> faults(k) == Works
    }

    ghost predicate AtMostOneFault() {
      forall m, n :: faults(m) != Works && faults(n) != Works ==> m == n
    }

    ghost predicate FreshIds(taken: Containers) {
      forall n :: ids(n) !in taken
    }

    /** A call that makes sense fails only through its own fault. */
    ghost predicate Means(before: nat, after: nat, sensible: bool, ok: bool) {
      after == before + 1 && (sensible && !ok ==> faults(before) != Works)
    }

    method Fate() returns (f: Fault)
      modifies this`calls
      ensures f == faults(old(calls)) && calls == old(calls) + 1
    {
      f := faults(calls);
      calls := calls + 1;
    }

    method ContainerRename(id: string, name: string) returns (ok: bool)
      modifies this`containers, this`calls, this`history
      ensures exists f :: (containers, ok) == Renamed(old(containers), id, name, f)
      ensures Means(old(calls), calls, id in old(containers) && NameFree(old(containers), name), ok)
      ensures history == old(history) + [containers]
    {
      var f := Fate();
      var (cs, done) := Renamed(containers, id, name, f);
      containers, ok := cs, done;
      history := history + [containers];
    }

    /** On success id is a new container's, under a name that was free. */
    method ContainerCreate(cfg: Config, host: HostConfig, atCreate: Option<Nets>, name: string) returns (id: Option<string>)
      modifies this`containers, this`calls, this`history
      ensures id.None? ==> containers == old(containers)
      ensures id.Some? ==> cfg.image in images && id.value !in old(containers) && NameFree(old(containers), name)
      ensures id.Some? ==> containers == old(containers)[id.value := Created(old(containers), images, name, cfg, host, atCreate)]
      ensures Means(old(calls), calls, FreshIds(old(containers)) && cfg.image in images && NameFree(old(containers), name), id.Some?)
      ensures history == old(history) + [containers]
    {
      var newId := ids(calls);
      var f := Fate();
      id := None;
      if f.Works? && cfg.image in images && newId !in containers && NameFree(containers, name) {
        id := Some(newId);
        containers := containers[newId := Created(containers, images, name, cfg, host, atCreate)];
      }
      history := history + [containers];
    }

    method NetworkConnect(net: string, id: string, ep: Endpoint) returns (ok: bool)
      modifies this`containers, this`calls, this`history
      ensures exists f :: (containers, ok) == Connected(old(containers), net, id, ep, f)
      ensures Means(old(calls), calls, id in old(containers) && net !in old(containers)[id].nets, ok)
      ensures history == old(history) + [containers]
    {
      var f := Fate();
      var (cs, done) := Connected(containers, net, id, ep, f);
      containers, ok := cs, done;
      history := history + [containers];
    }

    method ContainerStop(id: string) returns (ok: bool)
      modifies this`containers, this`calls, this`history
      ensures exists f :: (containers, ok) == Switched(old(containers), id, false, f)
      ensures Means(old(calls), calls, id in old(containers), ok)
      ensures history == old(history) + [containers]
    {
      var f := Fate();
      var (cs, done) := Switched(containers, id, false, f);
      containers, ok := cs, done;
      history := history + [containers];
    }

    method ContainerStart(id: string) returns (ok: bool)
      modifies this`containers, this`calls, this`history
      ensures exists f :: (containers, ok) == Switched(old(containers), id, true, f)
      ensures Means(old(calls), calls, id in old(containers), ok)
      ensures history == old(history) + [containers]
    {
      var f := Fate();
      var (cs, done) := Switched(containers, id, true, f);
      containers, ok := cs, done;
      history := history + [containers];
    }

    method ContainerRemove(id: string, force: bool) returns (ok: bool)
      modifies this`containers, this`calls, this`history
      ensures exists f :: (containers, ok) == Removed(old(containers), id, force, f)
      ensures Means(old(calls), calls, id in old(containers) && (force || !old(containers)[id].running), ok)
      ensures history == old(history) + [containers]
    {
      var f := Fate();
      var (cs, done) := Removed(containers, id, force, f);
      containers, ok := cs, done;
      history := history + [containers];
    }

    /** Pulls touch images only. */
    method ImagePull(ref: string) returns (ok: bool)
      modifies this`images, this`calls
      ensures !ok ==> images == old(images)
      ensures Means(old(calls), calls, ref in registry, ok)
      ensures ok ==> ref in registry && images == old(images)[registry[ref].id := registry[ref]][ref := registry[ref]]
    {
      var f := Fate();
      ok := f.Works? && ref in registry;
      if ok {
        images := images[registry[ref].id := registry[ref]][ref := registry[ref]];
      }
    }

    method ImageInspect(ref: string) returns (image: Option<Image>)
      modifies this`calls
      ensures image.Some? ==> ref in images && image.value == images[ref]
      ensures Means(old(calls), calls, ref in images, image.Some?)
    {
      var f := Fate();
      image := if f.Works? && ref in images then Some(images[ref]) else None;
    }
  }
}
