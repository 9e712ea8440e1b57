/** Carrying a container's configuration over to a new image (internal/agent/upgrade.go,
    refreshImageDefaults), against Docker's own merge of user settings over image defaults. */
module Rebase {
  import opened Base

  // An environment entry KEY=value, split at the first '='.
  datatype EnvVar = EnvVar(key: string, value: string)

  // None is a nil entrypoint; an empty one is an explicit reset.
  datatype Defaults = Defaults(env: seq<EnvVar>, entrypoint: Option<seq<string>>, cmd: seq<string>,
                               workingDir: string, user: string, labels: map<string, string>)

  datatype Config = Config(image: string, hostname: string,
                           env: seq<EnvVar>, entrypoint: Option<seq<string>>, cmd: seq<string>,
                           workingDir: string, user: string, labels: map<string, string>)

  function Words(entrypoint: Option<seq<string>>): seq<string> {
    if entrypoint.None? then [] else entrypoint.value
  }

  // ---------------------------------------------------------------- Docker's merge

  predicate HasKey(env: seq<EnvVar>, key: string) {
    exists e <- env :: e.key == key
  }

  /** The entries whose keys the user did not set. */
  function Inherited(env: seq<EnvVar>, user: seq<EnvVar>): seq<EnvVar> {
    if env == [] then []
    else (if HasKey(user, env[0].key) then [] else [env[0]]) + Inherited(env[1..], user)
  }

  /** What a container created from user settings on an image runs with. A non-empty entrypoint
      also shuts out the image's cmd. */
  function Merge(u: Config, image: Defaults): Config {
    u.(env := u.env + Inherited(image.env, u.env),
       entrypoint := if u.entrypoint.None? then image.entrypoint else u.entrypoint,
       cmd := if Words(u.entrypoint) == [] && u.cmd == [] then image.cmd else u.cmd,
       workingDir := if u.workingDir == "" then image.workingDir else u.workingDir,
       user := if u.user == "" then image.user else u.user,
       labels := image.labels + u.labels)
  }

  // ---------------------------------------------------------------- refreshImageDefaults

  function Without(env: seq<EnvVar>, drop: seq<EnvVar>): seq<EnvVar> {
    if env == [] then []
    else (if env[0] in drop then [] else [env[0]]) + Without(env[1..], drop)
  }

  predicate SameLabel(labels: map<string, string>, key: string, value: string) {
    key in labels && labels[key] == value
  }

  function Refreshed(cfg: Config, oldImage: Option<Defaults>, newImage: Option<Defaults>): Config {
    if oldImage.None? || newImage.None? then cfg
    else
      var prior := oldImage.value;
      cfg.(env := Without(cfg.env, prior.env),
           entrypoint := if Words(cfg.entrypoint) == Words(prior.entrypoint) then None else cfg.entrypoint,
           cmd := if cfg.cmd == prior.cmd then [] else cfg.cmd,
           workingDir := if cfg.workingDir == prior.workingDir then "" else cfg.workingDir,
           user := if cfg.user == prior.user then "" else cfg.user,
           labels := map k | k in cfg.labels && !SameLabel(prior.labels, k, cfg.labels[k]) :: cfg.labels[k])
  }

  method RefreshImageDefaults(cfg: Config, oldImage: Option<Defaults>, newImage: Option<Defaults>) returns (out: Config)
    ensures out == Refreshed(cfg, oldImage, newImage)
  {
    out := cfg;
    if oldImage.None? || newImage.None? {
      return;
    }
    var prior := oldImage.value;
    var userEnv: seq<EnvVar> := [];
    for i := 0 to |cfg.env|
      invariant userEnv == Without(cfg.env[..i], prior.env)
    {
      assert cfg.env[..i + 1] == cfg.env[..i] + [cfg.env[i]];
      WithoutSplit(cfg.env[..i], [cfg.env[i]], prior.env);
      if cfg.env[i] !in prior.env {
        userEnv := userEnv + [cfg.env[i]];
      }
    }
    assert cfg.env[..|cfg.env|] == cfg.env;
    out := out.(env := userEnv);
    if Words(cfg.entrypoint) == Words(prior.entrypoint) {
      out := out.(entrypoint := None);
    }
    if cfg.cmd == prior.cmd {
      out := out.(cmd := []);
    }
    if cfg.workingDir == prior.workingDir {
      out := out.(workingDir := "");
    }
    if cfg.user == prior.user {
      out := out.(user := "");
    }
    var labels := UserLabels(cfg.labels, prior.labels);
    out := out.(labels := labels);
  }

  /** The labels that did not come from the old image. */
  method UserLabels(labels: map<string, string>, prior: map<string, string>) returns (own: map<string, string>)
    ensures own == map k | k in labels && !SameLabel(prior, k, labels[k]) :: labels[k]
  {
    if |labels| == 0 || |prior| == 0 {
      assert forall k :: k in labels ==> !SameLabel(prior, k, labels[k]);
      return labels;
    }
    own := map[];
    var todo := labels.Keys;
    while todo != {}
      invariant todo <= labels.Keys
      invariant own.Keys <= labels.Keys - todo
      invariant forall k :: k in labels && k !in todo ==> (k in own <==> !SameLabel(prior, k, labels[k]))
      invariant forall k :: k in own ==> own[k] == labels[k]
      decreases todo
    {
      var k :| k in todo;
      todo := todo - {k};
      if !SameLabel(prior, k, labels[k]) {
        own := own[k := labels[k]];
      }
    }
  }

  // ---------------------------------------------------------------- environment lemmas

  lemma {:induction false} WithoutSplit(a: seq<EnvVar>, b: seq<EnvVar>, drop: seq<EnvVar>)
    ensures Without(a + b, drop) == Without(a, drop) + Without(b, drop)
  {
    if a == [] {
      assert a + b == b;
    } else {
      assert (a + b)[1..] == a[1..] + b;
      WithoutSplit(a[1..], b, drop);
    }
  }

  lemma {:induction false} WithoutAll(env: seq<EnvVar>, drop: seq<EnvVar>)
    requires forall e :: e in env ==> e in drop
    ensures Without(env, drop) == []
  {
    if env != [] {
      assert env[0] in env;
      WithoutAll(env[1..], drop);
    }
  }

  lemma {:induction false} WithoutNone(env: seq<EnvVar>, drop: seq<EnvVar>)
    requires forall e :: e in env ==> e !in drop
    ensures Without(env, drop) == env
  {
    if env != [] {
      assert env[0] in env;
      WithoutNone(env[1..], drop);
    }
  }

  lemma {:induction false} WithoutIn(env: seq<EnvVar>, drop: seq<EnvVar>, e: EnvVar)
    ensures e in Without(env, drop) <==> e in env && e !in drop
  {
    if env != [] {
      WithoutIn(env[1..], drop, e);
    }
  }

  lemma {:induction false} InheritedIn(env: seq<EnvVar>, user: seq<EnvVar>, e: EnvVar)
    ensures e in Inherited(env, user) <==> e in env && !HasKey(user, e.key)
  {
    if env != [] {
      InheritedIn(env[1..], user, e);
    }
  }

  /** Refreshing strips a created container's environment back to the user's own entries. */
  lemma OwnEnv(user: seq<EnvVar>, prior: seq<EnvVar>)
    ensures Without(user + Inherited(prior, user), prior) == Without(user, prior)
  {
    WithoutSplit(user, Inherited(prior, user), prior);
    forall e ensures e in Inherited(prior, user) ==> e in prior {
      InheritedIn(prior, user, e);
    }
    WithoutAll(Inherited(prior, user), prior);
  }

  // ---------------------------------------------------------------- the rebase law

  /** No setting the user made equals what the old image would have supplied anyway. */
  ghost predicate NothingRestated(u: Config, prior: Defaults) {
    && (forall e :: e in u.env ==> e !in prior.env)
    && (u.entrypoint.Some? ==> u.entrypoint.value != Words(prior.entrypoint))
    && (u.cmd != [] ==> u.cmd != prior.cmd)
    && (u.workingDir != "" ==> u.workingDir != prior.workingDir)
    && (u.user != "" ==> u.user != prior.user)
    && (forall k :: k in u.labels ==> !SameLabel(prior.labels, k, u.labels[k]))
  }

  function Rebased(u: Config, prior: Defaults, next: Defaults): Config {
    Merge(Refreshed(Merge(u, prior), Some(prior), Some(next)), next)
  }

  /** Recreating a container on a new image gives exactly the container the user's own settings
      would have given there. */
  lemma RebaseLaw(u: Config, prior: Defaults, next: Defaults)
    requires NothingRestated(u, prior)
    ensures Rebased(u, prior, next) == Merge(u, next)
  {
    OwnEnv(u.env, prior.env);
    WithoutNone(u.env, prior.env);
    var back := Refreshed(Merge(u, prior), Some(prior), Some(next));
    assert back.labels == u.labels;
    assert back.env == u.env && back.workingDir == u.workingDir && back.user == u.user;
  }

  // ---------------------------------------------------------------- exactly when it holds

  /** The values of a key, in order; a user may set one more than once. */
  function ValuesOf(env: seq<EnvVar>, key: string): seq<string> {
    if env == [] then []
    else (if env[0].key == key then [env[0].value] else []) + ValuesOf(env[1..], key)
  }

  /** Same settings, the order of environment entries of different keys aside. */
  ghost predicate SameSettings(a: Config, b: Config) {
    && SameEnv(a.env, b.env)
    && a.entrypoint == b.entrypoint && a.cmd == b.cmd
    && a.workingDir == b.workingDir && a.user == b.user && a.labels == b.labels
  }

  ghost predicate SameEnv(a: seq<EnvVar>, b: seq<EnvVar>) {
    forall key :: ValuesOf(a, key) == ValuesOf(b, key)
  }

  /** Where the user restated an entry, all entries of its key are restated ones, and the new image
      has the same. */
  ghost predicate EnvSurvives(user: seq<EnvVar>, prior: seq<EnvVar>, next: seq<EnvVar>) {
    forall e :: e in user && e in prior ==>
      && ValuesOf(next, e.key) == ValuesOf(user, e.key)
      && forall f :: f in user && f.key == e.key ==> f in prior
  }

  /** A restated command line comes out the same: the new image supplies what was dropped, and
      where only one of entrypoint and cmd was dropped nothing slips in beside the other. */
  predicate CommandSurvives(u: Config, prior: Defaults, next: Defaults) {
    var entrypointDropped := u.entrypoint.Some? && u.entrypoint.value == Words(prior.entrypoint);
    var cmdDropped := u.cmd != [] && u.cmd == prior.cmd;
    && (entrypointDropped ==> next.entrypoint == u.entrypoint)
    && (entrypointDropped && u.entrypoint.value != [] && u.cmd == [] ==> next.cmd == [])
    && (cmdDropped ==> next.cmd == u.cmd && (Words(u.entrypoint) == [] || entrypointDropped))
  }

  /** Whatever the user restated from the old image, the new image says too. */
  ghost predicate RestatedAgain(u: Config, prior: Defaults, next: Defaults) {
    && EnvSurvives(u.env, prior.env, next.env)
    && CommandSurvives(u, prior, next)
    && (u.workingDir != "" && u.workingDir == prior.workingDir ==> next.workingDir == u.workingDir)
    && (u.user != "" && u.user == prior.user ==> next.user == u.user)
    && (forall k :: k in u.labels && SameLabel(prior.labels, k, u.labels[k]) ==> SameLabel(next.labels, k, u.labels[k]))
  }

  lemma {:induction false} ValuesConcat(a: seq<EnvVar>, b: seq<EnvVar>, key: string)
    ensures ValuesOf(a + b, key) == ValuesOf(a, key) + ValuesOf(b, key)
  {
    if a == [] {
      assert a + b == b;
    } else {
      assert (a + b)[1..] == a[1..] + b;
      ValuesConcat(a[1..], b, key);
    }
  }

  lemma {:induction false} NoValues(env: seq<EnvVar>, key: string)
    ensures ValuesOf(env, key) == [] <==> !HasKey(env, key)
  {
    if env != [] {
      NoValues(env[1..], key);
      assert env == [env[0]] + env[1..];
    }
  }

  lemma {:induction false} ValuesInherited(env: seq<EnvVar>, user: seq<EnvVar>, key: string)
    ensures ValuesOf(Inherited(env, user), key) == if HasKey(user, key) then [] else ValuesOf(env, key)
  {
    if env != [] {
      ValuesInherited(env[1..], user, key);
      ValuesConcat(if HasKey(user, env[0].key) then [] else [env[0]], Inherited(env[1..], user), key);
    }
  }

  /** What a merged environment has under a key: the user's values, or else the image's. */
  lemma MergedValues(user: seq<EnvVar>, image: seq<EnvVar>, key: string)
    ensures ValuesOf(user + Inherited(image, user), key) == if HasKey(user, key) then ValuesOf(user, key) else ValuesOf(image, key)
  {
    ValuesConcat(user, Inherited(image, user), key);
    ValuesInherited(image, user, key);
    NoValues(user, key);
  }

  predicate Restates(user: seq<EnvVar>, prior: seq<EnvVar>, key: string) {
    exists e <- user :: e.key == key && e in prior
  }

  /** Dropping entries shows in the values of their key. */
  lemma {:induction false} ValuesWithout(user: seq<EnvVar>, prior: seq<EnvVar>, key: string)
    ensures !Restates(user, prior, key) ==> ValuesOf(Without(user, prior), key) == ValuesOf(user, key)
    ensures |ValuesOf(Without(user, prior), key)| <= |ValuesOf(user, key)|
    ensures Restates(user, prior, key) ==> |ValuesOf(Without(user, prior), key)| < |ValuesOf(user, key)|
  {
    if user != [] {
      var e, rest := user[0], user[1..];
      assert user == [e] + rest;
      ValuesWithout(rest, prior, key);
      ValuesConcat(if e in prior then [] else [e], Without(rest, prior), key);
      assert Restates(user, prior, key) <==> (e.key == key && e in prior) || Restates(rest, prior, key);
    }
  }

  lemma KeyExactly(user: seq<EnvVar>, prior: seq<EnvVar>, next: seq<EnvVar>, key: string)
    ensures var own := Without(user, prior);
      ValuesOf(own + Inherited(next, own), key) == ValuesOf(user + Inherited(next, user), key) <==>
        (Restates(user, prior, key) ==> !HasKey(own, key) && ValuesOf(next, key) == ValuesOf(user, key))
  {
    var own := Without(user, prior);
    MergedValues(own, next, key);
    MergedValues(user, next, key);
    ValuesWithout(user, prior, key);
    NoValues(own, key);
    NoValues(user, key);
    forall e ensures e in own <==> e in user && e !in prior {
      WithoutIn(user, prior, e);
    }
  }

  lemma EnvExactly(user: seq<EnvVar>, prior: seq<EnvVar>, next: seq<EnvVar>)
    ensures var own := Without(user, prior);
      SameEnv(own + Inherited(next, own), user + Inherited(next, user)) <==> EnvSurvives(user, prior, next)
  {
    var own := Without(user, prior);
    forall key
      ensures ValuesOf(own + Inherited(next, own), key) == ValuesOf(user + Inherited(next, user), key) <==>
        (Restates(user, prior, key) ==> !HasKey(own, key) && ValuesOf(next, key) == ValuesOf(user, key))
    {
      KeyExactly(user, prior, next, key);
    }
    forall e ensures e in own <==> e in user && e !in prior {
      WithoutIn(user, prior, e);
    }
    hide Without, Inherited, ValuesOf;
    if SameEnv(own + Inherited(next, own), user + Inherited(next, user)) {
      forall e | e in user && e in prior
        ensures ValuesOf(next, e.key) == ValuesOf(user, e.key) && forall f :: f in user && f.key == e.key ==> f in prior
      {
        assert Restates(user, prior, e.key);
        forall f | f in user && f.key == e.key ensures f in prior {
          assert f in own ==> HasKey(own, e.key);
        }
      }
    }
  }

  lemma LabelsExactly(u: map<string, string>, prior: map<string, string>, next: map<string, string>)
    ensures var merged := prior + u;
      var own := map k | k in merged && !SameLabel(prior, k, merged[k]) :: merged[k];
      next + own == next + u <==> forall k :: k in u && SameLabel(prior, k, u[k]) ==> SameLabel(next, k, u[k])
  {
    var merged := prior + u;
    var own := map k | k in merged && !SameLabel(prior, k, merged[k]) :: merged[k];
    forall k
      ensures k in own <==> k in u && !SameLabel(prior, k, u[k])
      ensures k in own ==> own[k] == u[k]
    {
    }
    if next + own == next + u {
      forall k | k in u && SameLabel(prior, k, u[k]) ensures SameLabel(next, k, u[k]) {
        assert (next + u)[k] == u[k];
        assert k in (next + own);
      }
    }
  }

  /** The law holds of a configuration exactly when the new image restates what the user had
      restated from the prior one. */
  lemma RebaseExactly(u: Config, prior: Defaults, next: Defaults)
    ensures SameSettings(Rebased(u, prior, next), Merge(u, next)) <==> RestatedAgain(u, prior, next)
  {
    OwnEnv(u.env, prior.env);
    EnvExactly(u.env, prior.env, next.env);
    LabelsExactly(u.labels, prior.labels, next.labels);
    CommandExactly(u, prior, next);
  }

  lemma CommandExactly(u: Config, prior: Defaults, next: Defaults)
    ensures var r, direct := Rebased(u, prior, next), Merge(u, next);
      r.entrypoint == direct.entrypoint && r.cmd == direct.cmd <==> CommandSurvives(u, prior, next)
  {
  }

  /** A user who pinned a variable to the old image's default loses it when the default changes. */
  lemma RestatedVariableChanges(u: Config, prior: Defaults, next: Defaults, key: string, was: string, becomes: string)
    requires u.env == prior.env == [EnvVar(key, was)] && next.env == [EnvVar(key, becomes)] && was != becomes
    ensures ValuesOf(Merge(u, next).env, key) == [was] && ValuesOf(Rebased(u, prior, next).env, key) == [becomes]
  {
    var e := EnvVar(key, was);
    assert [e][1..] == [] && HasKey([e], key) && !HasKey([], key);
    OwnEnv(u.env, prior.env);
    assert Without([e], [e]) == [];
    MergedValues(u.env, next.env, key);
    MergedValues([], next.env, key);
    assert ValuesOf([e], key) == [was] && ValuesOf([EnvVar(key, becomes)], key) == [becomes];
  }
}
