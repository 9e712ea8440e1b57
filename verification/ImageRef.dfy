/** Image references and local digests (internal/agent/registry.go). */
module ImageRef {
  import opened Base
  import opened Text

  const DOCKER_HUB := "registry-1.docker.io"

  datatype Repo = Repo(registry: string, name: string)

  datatype Ref = Ref(repo: Repo, tag: string)

  // ---------------------------------------------------------------- parsing

  function Until(s: string, c: char): string {
    var i := IndexOf(s, c);
    if i.Some? then s[..i.value] else s
  }

  predicate IsHost(s: string) {
    '.' in s || ':' in s || s == "localhost"
  }

  function SplitRepo(s: string): Repo {
    var slash := IndexOf(s, '/');
    var repo :=
      if slash.Some? && IsHost(s[..slash.value]) then Repo(s[..slash.value], s[slash.value + 1..])
      else if slash.Some? then Repo(DOCKER_HUB, s)
      else Repo(DOCKER_HUB, "library/" + s);
    if repo.registry == "docker.io" || repo.registry == "index.docker.io" then
      Repo(DOCKER_HUB, if '/' in repo.name then repo.name else "library/" + repo.name)
    else
      repo
  }

  /** None for the empty reference, the only one refused. */
  function ParseImageRef(s: string): Option<Ref> {
    var named := Until(s, '@');
    if named == "" then None
    else
      var colon := LastIndexOf(named, ':');
      if colon.Some? && '/' !in named[colon.value..] then
        Some(Ref(SplitRepo(named[..colon.value]), named[colon.value + 1..]))
      else
        Some(Ref(SplitRepo(named), "latest"))
  }

  function RenderRepo(repo: Repo): string {
    repo.registry + "/" + repo.name
  }

  function Render(ref: Ref): string {
    RenderRepo(ref.repo) + ":" + ref.tag
  }

  // ---------------------------------------------------------------- canonical forms

  predicate CanonicalRepo(repo: Repo) {
    && IsHost(repo.registry) && '/' !in repo.registry
    && repo.registry != "docker.io" && repo.registry != "index.docker.io"
  }

  lemma DockerHubIsCanonical(name: string)
    ensures CanonicalRepo(Repo(DOCKER_HUB, name)) && '@' !in DOCKER_HUB && '@' !in "library/"
  {
    assert DOCKER_HUB[10] == '.';
  }

  lemma SplitRepoIsCanonical(s: string)
    ensures CanonicalRepo(SplitRepo(s))
    ensures '@' !in s ==> '@' !in SplitRepo(s).registry && '@' !in SplitRepo(s).name
  {
    DockerHubIsCanonical(SplitRepo(s).name);
    var slash := IndexOf(s, '/');
    if slash.Some? {
      assert s == s[..slash.value] + ['/'] + s[slash.value + 1..];
    }
    hide IsHost;
  }

  lemma RepoFixpoint(repo: Repo)
    requires CanonicalRepo(repo)
    ensures SplitRepo(RenderRepo(repo)) == repo
  {
    assert RenderRepo(repo) == repo.registry + ['/'] + repo.name;
    IndexOfAt(repo.registry, '/', repo.name);
    var s := RenderRepo(repo);
    assert s[..|repo.registry|] == repo.registry && s[|repo.registry| + 1..] == repo.name;
    hide IsHost;
  }

  /** Writing a repository out in full and splitting it again changes nothing. */
  lemma SplitRepoIdempotent(s: string)
    ensures SplitRepo(RenderRepo(SplitRepo(s))) == SplitRepo(s)
  {
    SplitRepoIsCanonical(s);
    RepoFixpoint(SplitRepo(s));
  }

  lemma TaggedParse(s: string, tag: string)
    requires '@' !in s && '@' !in tag && ':' !in tag && '/' !in tag
    ensures ParseImageRef(s + ":" + tag) == Some(Ref(SplitRepo(s), tag))
  {
    var full := s + [':'] + tag;
    assert s + ":" + tag == full;
    IndexOfNone(full, '@');
    LastIndexOfAt(s, ':', tag);
    assert full[|s|..] == [':'] + tag && full[..|s|] == s;
  }

  /** A reference whose last part has no tag means latest; a port before that is no tag. */
  lemma UntaggedIsLatest(dir: string, base: string)
    requires '@' !in dir && '@' !in base && ':' !in base && '/' !in base
    ensures base != "" ==> ParseImageRef(base) == Some(Ref(SplitRepo(base), "latest"))
    ensures ParseImageRef(dir + "/" + base) == Some(Ref(SplitRepo(dir + "/" + base), "latest"))
  {
    var s := dir + "/" + base;
    IndexOfNone(base, '@');
    IndexOfNone(s, '@');
    var colon := LastIndexOf(s, ':');
    if colon.Some? {
      var i := colon.value;
      forall k | |dir| < k < |s| ensures s[k] != ':' {
        assert s[k] == base[k - |dir| - 1] && s[k] in base;
      }
      assert s[i..][|dir| - i] == '/';
    }
  }

  /** A first part that looks like a host is the registry, Docker Hub's other names aside. */
  lemma HostedRepo(host: string, name: string)
    requires '/' !in host && ('.' in host || ':' in host || host == "localhost")
    requires host != "docker.io" && host != "index.docker.io"
    ensures SplitRepo(host + "/" + name) == Repo(host, name)
  {
    RepoFixpoint(Repo(host, name));
  }

  /** Any other first part is a user of Docker Hub. */
  lemma UserRepo(user: string, name: string)
    requires '/' !in user && '.' !in user && ':' !in user && user != "localhost"
    ensures SplitRepo(user + "/" + name) == Repo("registry-1.docker.io", user + "/" + name)
  {
    AtSlash(user, name);
  }

  lemma ParsedTag(s: string)
    requires ParseImageRef(s).Some?
    ensures var tag := ParseImageRef(s).value.tag; '@' !in tag && ':' !in tag && '/' !in tag
    ensures '@' !in RenderRepo(ParseImageRef(s).value.repo)
  {
    hide SplitRepo;
    var named := Until(s, '@');
    assert '@' !in named;
    var colon := LastIndexOf(named, ':');
    if colon.Some? && '/' !in named[colon.value..] {
      var i := colon.value;
      assert forall c :: c in named[i + 1..] ==> c in named[i..] && c in named;
      SplitRepoIsCanonical(named[..i]);
    } else {
      SplitRepoIsCanonical(named);
    }
  }

  /** Every parsed reference, written out in full, parses to itself. */
  lemma ParseIsCanonical(s: string)
    requires ParseImageRef(s).Some?
    ensures ParseImageRef(Render(ParseImageRef(s).value)) == ParseImageRef(s)
  {
    var ref := ParseImageRef(s).value;
    ParsedTag(s);
    TaggedParse(RenderRepo(ref.repo), ref.tag);
    SplitRepoIsCanonical(Until(s, '@'));
    ParsedRepoIsCanonical(s);
    RepoFixpoint(ref.repo);
  }

  lemma ParsedRepoIsCanonical(s: string)
    requires ParseImageRef(s).Some?
    ensures CanonicalRepo(ParseImageRef(s).value.repo)
  {
    var named := Until(s, '@');
    var colon := LastIndexOf(named, ':');
    SplitRepoIsCanonical(if colon.Some? && '/' !in named[colon.value..] then named[..colon.value] else named);
  }

  /** The digest, wherever the image was pinned, plays no part. */
  lemma DigestIgnored(s: string, digest: string)
    requires '@' !in s
    ensures ParseImageRef(s + "@" + digest) == ParseImageRef(s)
  {
    assert s + "@" + digest == s + ['@'] + digest;
    IndexOfAt(s, '@', digest);
    IndexOfNone(s, '@');
    assert (s + ['@'] + digest)[..|s|] == s;
  }

  lemma HubAlias(host: string, name: string)
    requires host == "docker.io" || host == "index.docker.io"
    ensures SplitRepo(host + "/" + name) == Repo(DOCKER_HUB, if '/' in name then name else "library/" + name)
  {
    AtSlash(host, name);
    assert host[if host == "docker.io" then 6 else 5] == '.';
  }

  /** All the ways to name an official Docker Hub repository are one repository. */
  lemma OfficialNames(name: string)
    requires '/' !in name
    ensures var official := SplitRepo(name);
      && official == SplitRepo("docker.io" + "/" + name) == SplitRepo("index.docker.io" + "/" + name)
      && official == SplitRepo("library" + "/" + name) == SplitRepo("docker.io" + "/" + ("library/" + name))
      && official == SplitRepo(DOCKER_HUB + "/" + ("library/" + name))
  {
    Unqualified(name);
    UnderLibrary(name);
    hide SplitRepo;
    HubAlias("docker.io", name);
    HubAlias("index.docker.io", name);
    HubAlias("docker.io", "library/" + name);
    assert ("library/" + name)[7] == '/';
    DockerHubIsCanonical("library/" + name);
    RepoFixpoint(Repo(DOCKER_HUB, "library/" + name));
  }

  lemma Unqualified(name: string)
    requires '/' !in name
    ensures SplitRepo(name) == Repo(DOCKER_HUB, "library/" + name)
  {
    IndexOfNone(name, '/');
  }

  lemma UnderLibrary(name: string)
    ensures SplitRepo("library" + "/" + name) == Repo(DOCKER_HUB, "library/" + name)
  {
    AtSlash("library", name);
    assert "library" + "/" + name == "library/" + name;
  }

  lemma AtSlash(a: string, b: string)
    requires '/' !in a
    ensures IndexOf(a + "/" + b, '/') == Some(|a|)
    ensures (a + "/" + b)[..|a|] == a && (a + "/" + b)[|a| + 1..] == b
  {
    assert a + "/" + b == a + ['/'] + b;
    IndexOfAt(a, '/', b);
  }

  // ---------------------------------------------------------------- local digests

  function DigestOf(d: string): string
    requires '@' in d
  {
    d[IndexOf(d, '@').value + 1..]
  }

  predicate Matches(d: string, repo: Repo) {
    '@' in d && SplitRepo(Until(d, '@')) == repo
  }

  predicate Usable(d: string) {
    '@' in d && DigestOf(d) != ""
  }

  /** The first entry for the repository, however it is spelt; without one, the first that has
      any digest at all; "" when there is none. */
  method ExtractLocalDigest(repoDigests: seq<string>, repo: Repo) returns (r: string)
    ensures (exists i :: 0 <= i < |repoDigests| && Matches(repoDigests[i], repo)) ==>
      exists i :: 0 <= i < |repoDigests| && Matches(repoDigests[i], repo) && r == DigestOf(repoDigests[i])
        && forall j :: 0 <= j < i ==> !Matches(repoDigests[j], repo)
    ensures (forall i :: 0 <= i < |repoDigests| ==> !Matches(repoDigests[i], repo)) && r != "" ==>
      exists i :: 0 <= i < |repoDigests| && Usable(repoDigests[i]) && r == DigestOf(repoDigests[i])
        && forall j :: 0 <= j < i ==> !Usable(repoDigests[j])
    ensures (forall i :: 0 <= i < |repoDigests| ==> !Matches(repoDigests[i], repo)) && r == "" ==>
      forall i :: 0 <= i < |repoDigests| ==> !Usable(repoDigests[i])
  {
    hide SplitRepo;
    var first := "";
    for k := 0 to |repoDigests|
      invariant forall i :: 0 <= i < k ==> !Matches(repoDigests[i], repo)
      invariant first == "" ==> forall i :: 0 <= i < k ==> !Usable(repoDigests[i])
      invariant first != "" ==>
        exists i :: 0 <= i < k && Usable(repoDigests[i]) && first == DigestOf(repoDigests[i])
          && forall j :: 0 <= j < i ==> !Usable(repoDigests[j])
    {
      var d := repoDigests[k];
      var at := IndexOf(d, '@');
      if at == None {
        continue;
      }
      var digest := d[at.value + 1..];
      if first == "" {
        first := digest;
      }
      if SplitRepo(d[..at.value]) == repo {
        return digest;
      }
    }
    return first;
  }

  /** An entry is a repository, '@' and its digest. */
  lemma EntryExactly(repo: string, digest: string)
    requires '@' !in repo
    ensures var entry := repo + "@" + digest;
      && '@' in entry && DigestOf(entry) == digest
      && (Usable(entry) <==> digest != "")
      && forall r :: Matches(entry, r) <==> SplitRepo(repo) == r
  {
    var entry := repo + "@" + digest;
    assert entry == repo + ['@'] + digest && entry[|repo|] == '@';
    IndexOfAt(repo, '@', digest);
    assert entry[..|repo|] == repo && entry[|repo| + 1..] == digest;
  }
}
