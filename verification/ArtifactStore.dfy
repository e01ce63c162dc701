/** The artifact table: put with format normalisation, the package listing that
    groups its rows, and the mark-and-sweep collection of unreferenced blobs. */
module ArtifactStore {
  import opened Common

  datatype Descriptor = Descriptor(digest: string)
  datatype Artifact = Artifact(format: string, repository: string, version: string, source: string, blobs: seq<Descriptor>)
  datatype Key = Key(format: string, repository: string, version: string)
  datatype PackageId = PackageId(format: string, repository: string)
  datatype Package = Package(versions: set<string>, source: string)

  type Table = map<Key, Artifact>

  function NormalFormat(format: string): string {
    if format == "" then "oci" else format
  }

  /** Rows are keyed by the normalised format, but hold the artifact as given. */
  ghost predicate Normal(t: Table) {
    forall k :: k in t ==>
      && t[k].repository == k.repository && t[k].version == k.version
      && NormalFormat(t[k].format) == k.format
  }

  predicate Listable(k: Key) { k.repository != "" && k.version != "" }

  function IdOf(k: Key): PackageId { PackageId(k.format, k.repository) }

  /** The grouping so far covers exactly the rows in `done`. */
  ghost predicate Groups(t: Table, done: set<Key>, out: map<PackageId, Package>) {
    && (forall k :: k in done && Listable(k) ==> IdOf(k) in out && k.version in out[IdOf(k)].versions)
    && (forall p, v :: p in out && v in out[p].versions ==> Key(p.format, p.repository, v) in done && Listable(Key(p.format, p.repository, v)))
    && (forall p :: p in out ==> out[p].versions != {})
  }

  /** A package is marked as pulled when some row of its group is. */
  ghost predicate Pulled(t: Table, done: set<Key>, p: PackageId) {
    exists v :: Key(p.format, p.repository, v) in done && Key(p.format, p.repository, v) in t
             && Listable(Key(p.format, p.repository, v)) && t[Key(p.format, p.repository, v)].source == "pull"
  }

  ghost predicate PullsMarked(t: Table, done: set<Key>, out: map<PackageId, Package>) {
    forall p :: p in out ==> (out[p].source == "pull" <==> Pulled(t, done, p))
  }

  /** Some row of the group has this source. */
  ghost predicate HasSource(t: Table, done: set<Key>, p: PackageId, source: string) {
    exists v :: Key(p.format, p.repository, v) in done && Key(p.format, p.repository, v) in t
             && Listable(Key(p.format, p.repository, v)) && t[Key(p.format, p.repository, v)].source == source
  }

  ghost predicate Sourced(t: Table, done: set<Key>, out: map<PackageId, Package>) {
    forall p :: p in out ==> HasSource(t, done, p, out[p].source)
  }

  /** One turn of the grouping loop. */
  function AddRow(k: Key, a: Artifact, out: map<PackageId, Package>): map<PackageId, Package> {
    if !Listable(k) then out
    else
      var p := PackageId(NormalFormat(if a.format == "" then k.format else a.format), k.repository);
      var entry := if p in out then out[p] else Package({}, a.source);
      var source := if a.source == "pull" then "pull"
                    else if a.source == "push" && entry.source == "" then "push" else entry.source;
      out[p := Package(entry.versions + {k.version}, source)]
  }

  lemma AddRowGroups(t: Table, done: set<Key>, out: map<PackageId, Package>, k: Key)
    requires Normal(t) && Groups(t, done, out) && k in t
    ensures Groups(t, done + {k}, AddRow(k, t[k], out))
  {
    var next := AddRow(k, t[k], out);
    if Listable(k) {
      assert k.version in next[IdOf(k)].versions;
      forall j | j in done && Listable(j)
        ensures IdOf(j) in next && j.version in next[IdOf(j)].versions
      {
        assert IdOf(j) in out && j.version in out[IdOf(j)].versions;
      }
    }
  }

  lemma AddRowPulls(t: Table, done: set<Key>, out: map<PackageId, Package>, k: Key)
    requires Normal(t) && Groups(t, done, out) && PullsMarked(t, done, out) && k in t
    ensures PullsMarked(t, done + {k}, AddRow(k, t[k], out))
  {
    var next, more := AddRow(k, t[k], out), done + {k};
    forall p | p in next
      ensures next[p].source == "pull" <==> Pulled(t, more, p)
    {
      if Pulled(t, more, p) {
        var v :| Key(p.format, p.repository, v) in more && Key(p.format, p.repository, v) in t
              && Listable(Key(p.format, p.repository, v)) && t[Key(p.format, p.repository, v)].source == "pull";
        if Key(p.format, p.repository, v) in done {
          assert p == IdOf(Key(p.format, p.repository, v));
          assert p in out && Pulled(t, done, p);
        }
      }
      if p in out && out[p].source == "pull" {
        assert Pulled(t, done, p);
      }
      if Listable(k) && IdOf(k) == p && t[k].source == "pull" {
        assert k == Key(p.format, p.repository, k.version);
      }
    }
  }

  lemma AddRowSources(t: Table, done: set<Key>, out: map<PackageId, Package>, k: Key)
    requires Normal(t) && Sourced(t, done, out) && k in t
    ensures Sourced(t, done + {k}, AddRow(k, t[k], out))
  {
    var next, more := AddRow(k, t[k], out), done + {k};
    forall p | p in next
      ensures HasSource(t, more, p, next[p].source)
    {
      if p in out { KeepsSource(t, done, more, p, out[p].source); }
      if Listable(k) && IdOf(k) == p {
        assert k == Key(p.format, p.repository, k.version);
        assert HasSource(t, more, p, t[k].source);
      }
    }
  }

  lemma KeepsSource(t: Table, done: set<Key>, more: set<Key>, p: PackageId, source: string)
    requires done <= more && HasSource(t, done, p, source)
    ensures HasSource(t, more, p, source)
  {
    var v :| Key(p.format, p.repository, v) in done && Key(p.format, p.repository, v) in t
          && Listable(Key(p.format, p.repository, v)) && t[Key(p.format, p.repository, v)].source == source;
  }

  /** The packages with a source each. */
  function Labelled(out: map<PackageId, Package>): (labelled: map<PackageId, Package>)
    ensures labelled.Keys == out.Keys
  {
    map p | p in out :: Package(out[p].versions, if out[p].source == "" then "push" else out[p].source)
  }

  /** Grouped rows, version by version. */
  lemma VersionsGrouped(t: Table, byRepo: map<PackageId, Package>)
    requires Groups(t, t.Keys, byRepo) && PullsMarked(t, t.Keys, byRepo)
    ensures var out := Labelled(byRepo);
      && PullsMarked(t, t.Keys, out) && (forall p :: p in out ==> out[p].versions != {} && out[p].source != "")
    ensures var out := Labelled(byRepo);
       forall f, r, v :: PackageId(f, r) in out && v in out[PackageId(f, r)].versions
                         <==> Key(f, r, v) in t && Listable(Key(f, r, v))
  {
    forall f, r, v
      ensures PackageId(f, r) in byRepo && v in byRepo[PackageId(f, r)].versions
         <==> Key(f, r, v) in t && Listable(Key(f, r, v))
    {
      assert IdOf(Key(f, r, v)) == PackageId(f, r);
    }
  }

  class SqliteArtifactStore {
    var artifacts: Table
    var repos: set<string>

    constructor ()
      ensures artifacts == map[] && repos == {} && Normal(artifacts)
    {
      artifacts, repos := map[], {};
    }

    method Put(a: Artifact)
      requires Normal(artifacts)
      modifies this
      ensures artifacts == old(artifacts)[Key(NormalFormat(a.format), a.repository, a.version) := a]
      ensures a.format != "" ==> artifacts == old(artifacts)[Key(a.format, a.repository, a.version) := a]
      ensures a.format == "" ==> artifacts == old(artifacts)[Key("oci", a.repository, a.version) := a]
      ensures repos == old(repos) + {a.repository}
      ensures Normal(artifacts)
    {
      var data := a;
      var format := if a.format == "" then "oci" else a.format;
      repos := repos + {a.repository};
      artifacts := artifacts[Key(format, a.repository, a.version) := data];
    }

    method Get(format: string, repo: string, version: string) returns (a: Option<Artifact>)
      ensures a == if Key(format, repo, version) in artifacts then Some(artifacts[Key(format, repo, version)]) else None
    {
      var k := Key(format, repo, version);
      a := if k in artifacts then Some(artifacts[k]) else None;
    }

    method Delete(format: string, repo: string, version: string)
      requires Normal(artifacts)
      modifies this`artifacts
      ensures artifacts == old(artifacts) - {Key(format, repo, version)}
      ensures Normal(artifacts)
    {
      artifacts := artifacts - {Key(format, repo, version)};
    }

    method DeleteRepo(repo: string) returns (n: nat)
      requires Normal(artifacts)
      modifies this
      ensures artifacts == map k | k in old(artifacts) && k.repository != repo :: old(artifacts)[k]
      ensures repos == old(repos) - {repo} && n == |old(artifacts)| - |artifacts|
      ensures Normal(artifacts)
    {
      var kept := map k | k in artifacts && k.repository != repo :: artifacts[k];
      var gone := set k | k in artifacts && k.repository == repo;
      assert artifacts.Keys == kept.Keys + gone;
      assert |artifacts.Keys| == |kept.Keys| + |gone|;
      n := |gone|;
      artifacts := kept;
      repos := repos - {repo};
    }

    /** Groups the rows by format and repository, in whatever order they come. */
    method ListPackages() returns (out: map<PackageId, Package>)
      requires Normal(artifacts)
      ensures forall f, r, v :: PackageId(f, r) in out && v in out[PackageId(f, r)].versions
                           <==> Key(f, r, v) in artifacts && Listable(Key(f, r, v))
      ensures forall p :: p in out ==> out[p].versions != {} && out[p].source != ""
      ensures PullsMarked(artifacts, artifacts.Keys, out)
      ensures forall p :: p in out ==>
        HasSource(artifacts, artifacts.Keys, p, out[p].source) || (out[p].source == "push" && HasSource(artifacts, artifacts.Keys, p, ""))
    {
      var byRepo: map<PackageId, Package> := map[];
      var rows := artifacts.Keys;
      ghost var done: set<Key> := {};
      while rows != {}
        invariant rows !! done && rows + done == artifacts.Keys
        invariant Groups(artifacts, done, byRepo) && PullsMarked(artifacts, done, byRepo) && Sourced(artifacts, done, byRepo)
        decreases |rows|
      {
        var k :| k in rows;
        OneLess(rows, done, k);
        AddRowGroups(artifacts, done, byRepo, k);
        AddRowPulls(artifacts, done, byRepo, k);
        AddRowSources(artifacts, done, byRepo, k);
        byRepo := AddRow(k, artifacts[k], byRepo);
        rows, done := rows - {k}, done + {k};
      }
      assert done == artifacts.Keys;
      out := Labelled(byRepo);
      VersionsGrouped(artifacts, byRepo);
    }
  }
}
