/** Garbage collection: mark every name a listed artifact uses, sweep the rest. */
module BlobGc {
  import opened Common
  import opened ArtifactStore

  const SHA256 := "sha256:"

  function AfterColon(s: string): Option<string> {
    if s == "" then None
    else if s[0] == ':' then Some(s[1..])
    else AfterColon(s[1..])
  }

  /** The bare hex of a descriptor: what follows the first ':', or everything. */
  function Hex(d: Descriptor): string {
    match AfterColon(d.digest)
    case Some(h) => h
    case None => d.digest
  }

  function Marks(a: Artifact): set<string> {
    (set b | b in a.blobs :: b.digest) + (set b | b in a.blobs :: Hex(b))
  }

  ghost predicate MarkedBy(t: Table, done: set<Key>, name: string) {
    exists k :: k in done && k in t && Listable(k) && name in Marks(t[k])
  }

  /** Some listed artifact keeps the blob: the sweep tests its name both as it
      is and with the SHA-256 prefix put before it. */
  ghost predicate Kept(t: Table, name: string) {
    MarkedBy(t, t.Keys, name) || MarkedBy(t, t.Keys, SHA256 + name)
  }

  /** The names left by a pass; a blob that cannot be removed stays. */
  ghost function Survivors(t: Table, names: set<string>, stuck: set<string>): set<string> {
    set n | n in names && (Kept(t, n) || n in stuck)
  }

  /** Blob names as the registry writes them: the prefix, then colon-free hex. */
  predicate Canonical(name: string) {
    SHA256 <= name && AfterColon(name[|SHA256|..]) == None
  }

  lemma CanonicalHex(name: string)
    requires Canonical(name)
    ensures Hex(Descriptor(name)) == name[|SHA256|..] && AfterColon(Hex(Descriptor(name))) == None
  {
    PrefixColon(name);
  }

  lemma PrefixColon(name: string)
    requires SHA256 <= name
    ensures AfterColon(name) == Some(name[|SHA256|..])
  {
    AfterColonExact("sha256", name[|SHA256|..]);
    assert name == "sha256" + ":" + name[|SHA256|..];
  }

  /** The bare hex of any digest: all of it if there is no ':', else what follows
      the first one. */
  lemma HexExact(algo: string, rest: string)
    requires ':' !in algo
    ensures Hex(Descriptor(algo)) == algo && Hex(Descriptor(algo + ":" + rest)) == rest
  {
    AfterColonExact(algo, rest);
  }

  lemma {:induction false} AfterColonExact(algo: string, rest: string)
    requires ':' !in algo
    ensures AfterColon(algo) == None && AfterColon(algo + ":" + rest) == Some(rest)
  {
    if algo == "" {
      assert ("" + ":" + rest)[1..] == rest;
    } else {
      AfterColonExact(algo[1..], rest);
      assert (algo + ":" + rest)[1..] == algo[1..] + ":" + rest;
    }
  }

  /** A blob that a listed artifact names, in full or by its bare hex after any
      algorithm name, is kept. */
  lemma NamedIsKept(t: Table, k: Key, b: Descriptor, algo: string, name: string)
    requires k in t && k.repository != "" && k.version != "" && b in t[k].blobs && ':' !in algo
    requires b.digest == name || b.digest == "sha256:" + name || b.digest == algo + ":" + name
    ensures Kept(t, name)
  {
    HexExact(algo, name);
    assert b == Descriptor(b.digest);
    assert Listable(k);
    if b.digest == SHA256 + name {
      assert SHA256 + name in Marks(t[k]);
    } else {
      assert name in Marks(t[k]);
    }
  }

  /** And nothing else: some listed artifact has a descriptor whose digest, or what
      follows its first ':', is the name, perhaps with the SHA-256 prefix. */
  lemma KeptIsNamed(t: Table, name: string)
    requires Kept(t, name)
    ensures exists k, b ::
      && k in t && k.repository != "" && k.version != "" && b in t[k].blobs
      && (b.digest == name || b.digest == "sha256:" + name || EndsAfterColon(b.digest, name) || EndsAfterColon(b.digest, "sha256:" + name))
  {
    var n := if MarkedBy(t, t.Keys, name) then name else SHA256 + name;
    var k :| k in t && Listable(k) && n in Marks(t[k]);
    var b :| b in t[k].blobs && (n == b.digest || n == Hex(b));
    if n != b.digest { ColonSplits(b.digest); }
  }

  ghost predicate EndsAfterColon(s: string, rest: string) {
    exists i :: 0 <= i < |s| && s[i] == ':' && ':' !in s[..i] && s[i + 1..] == rest
  }

  lemma {:induction false} ColonSplits(s: string)
    ensures AfterColon(s).Some? ==> EndsAfterColon(s, AfterColon(s).value)
  {
    if s != "" && s[0] == ':' {
      assert s[..0] == "";
    } else if s != "" && AfterColon(s).Some? {
      ColonSplits(s[1..]);
      var rest := AfterColon(s).value;
      var i :| 0 <= i < |s| - 1 && s[1..][i] == ':' && ':' !in s[1..][..i] && s[1..][i + 1..] == rest;
      assert s[..i + 1] == [s[0]] + s[1..][..i];
      assert s[i + 1] == ':' && s[i + 2..] == rest;
    }
  }

  /** With canonical names a pass keeps exactly the blobs that some artifact
      with a repository and a version names. */
  lemma CanonicalKept(t: Table, name: string)
    requires Canonical(name)
    requires forall k, b :: k in t && b in t[k].blobs ==> Canonical(b.digest)
    ensures Kept(t, name) <==> exists k :: k in t && k.repository != "" && k.version != "" && Descriptor(name) in t[k].blobs
  {
    if exists k :: k in t && k.repository != "" && k.version != "" && Descriptor(name) in t[k].blobs {
      var k :| k in t && Listable(k) && Descriptor(name) in t[k].blobs;
      assert name in Marks(t[k]);
    }
    forall k, n | k in t && Listable(k) && n in Marks(t[k]) && (n == name || n == SHA256 + name)
      ensures Descriptor(name) in t[k].blobs
    {
      var b :| b in t[k].blobs && (n == b.digest || n == Hex(b));
      CanonicalHex(b.digest);
      CanonicalHex(name);
      assert b == Descriptor(b.digest);
      PrefixColon(name);
      if n == SHA256 + name {
        assert n[|SHA256|..] == name;
        PrefixColon(n);
      }
    }
  }

  /** A second pass right after the first removes nothing. */
  lemma SecondPassIdle(t: Table, names: set<string>, stuck: set<string>)
    ensures Survivors(t, Survivors(t, names, stuck), stuck) == Survivors(t, names, stuck)
  {
  }

  /** The blob directory as the sweep sees it. */
  class BlobNames {
    var names: set<string>
    /** Names whose removal the filesystem refuses. */
    const stuck: set<string>

    constructor (names: set<string>, stuck: set<string>)
      ensures this.names == names && this.stuck == stuck
    {
      this.names := names;
      this.stuck := stuck;
    }

    method Delete(name: string) returns (ok: bool)
      modifies this
      ensures ok == (name !in stuck)
      ensures names == if ok then old(names) - {name} else old(names)
    {
      ok := name !in stuck;
      if ok {
        names := names - {name};
      }
    }
  }

  /** Names that a sweep of the unmarked leaves. */
  function Spared(names: set<string>, live: set<string>, stuck: set<string>): (kept: set<string>)
    ensures kept <= names
  {
    set n | n in names && (n in live || SHA256 + n in live || n in stuck)
  }

  predicate Stays(d: string, live: set<string>, stuck: set<string>) {
    d in live || SHA256 + d in live || d in stuck
  }

  /** What is there while `all` is still to be swept. */
  function Half(before: set<string>, all: set<string>, live: set<string>, stuck: set<string>): set<string> {
    all + Spared(before - all, live, stuck)
  }

  lemma HalfNext(before: set<string>, all: set<string>, d: string, live: set<string>, stuck: set<string>)
    requires d in all && all <= before
    ensures Half(before, all - {d}, live, stuck) ==
      if Stays(d, live, stuck) then Half(before, all, live, stuck) else Half(before, all, live, stuck) - {d}
    ensures d in Half(before, all, live, stuck)
    ensures |Half(before, all, live, stuck) - {d}| == |Half(before, all, live, stuck)| - 1
  {
    assert before - (all - {d}) == (before - all) + {d};
  }

  lemma HalfEnds(before: set<string>, live: set<string>, stuck: set<string>)
    ensures Half(before, before, live, stuck) == before && Half(before, {}, live, stuck) == Spared(before, live, stuck)
  {
    assert before - {} == before;
  }

  method Sweep(live: set<string>, blobs: BlobNames) returns (reclaimed: nat)
    modifies blobs
    ensures blobs.names == Spared(old(blobs.names), live, blobs.stuck)
    ensures reclaimed == |old(blobs.names)| - |blobs.names|
  {
    var all := blobs.names;
    ghost var before := all;
    HalfEnds(before, live, blobs.stuck);
    reclaimed := 0;
    while all != {}
      invariant all <= before && blobs.names == Half(before, all, live, blobs.stuck)
      invariant reclaimed == |before| - |blobs.names|
      decreases |all|
    {
      var d :| d in all;
      HalfNext(before, all, d, live, blobs.stuck);
      all := all - {d};
      if d in live || SHA256 + d in live {
        continue;
      }
      var ok := blobs.Delete(d);
      if ok {
        reclaimed := reclaimed + 1;
      }
    }
  }

  /** Returns the number of blobs removed. */
  method Run(meta: SqliteArtifactStore, blobs: BlobNames) returns (reclaimed: nat)
    requires Normal(meta.artifacts)
    modifies blobs
    ensures blobs.names == Survivors(meta.artifacts, old(blobs.names), blobs.stuck)
    ensures reclaimed == |old(blobs.names)| - |blobs.names|
  {
    var live := Mark(meta);
    ghost var before := blobs.names;
    reclaimed := Sweep(live, blobs);
    assert Spared(before, live, blobs.stuck) == Survivors(meta.artifacts, before, blobs.stuck);
  }

  /** Every name that a reported version of a reported package uses. */
  method Mark(meta: SqliteArtifactStore) returns (live: set<string>)
    requires Normal(meta.artifacts)
    ensures forall n :: n in live <==> MarkedBy(meta.artifacts, meta.artifacts.Keys, n)
  {
    var packages := meta.ListPackages();
    live := {};
    var ids := packages.Keys;
    ghost var done: set<Key> := {};
    ghost var t := meta.artifacts;
    while ids != {}
      invariant ids <= packages.Keys && done <= t.Keys
      invariant forall k :: k in t && Listable(k) && IdOf(k) !in ids ==> k in done
      invariant forall n :: n in live <==> MarkedBy(t, done, n)
      decreases |ids|
    {
      var p :| p in ids;
      ids := ids - {p};
      var versions := packages[p].versions;
      while versions != {}
        invariant versions <= packages[p].versions && done <= t.Keys
        invariant forall k :: k in t && Listable(k) && IdOf(k) !in ids ==> k in done || (IdOf(k) == p && k.version in versions)
        invariant forall n :: n in live <==> MarkedBy(t, done, n)
        decreases |versions|
      {
        var v :| v in versions;
        versions := versions - {v};
        var a := meta.Get(p.format, p.repository, v);
        ghost var k := Key(p.format, p.repository, v);
        assert k in t && Listable(k);
        MarkOne(t, done, k);
        done := done + {k};
        if a.None? {
          continue;
        }
        live := live + Marks(a.value);
      }
    }
    forall n ensures MarkedBy(t, done, n) <==> MarkedBy(t, t.Keys, n) {
    }
  }

  lemma MarkOne(t: Table, done: set<Key>, k: Key)
    requires k in t && Listable(k)
    ensures forall n :: MarkedBy(t, done + {k}, n) <==> MarkedBy(t, done, n) || n in Marks(t[k])
  {
    forall n ensures MarkedBy(t, done + {k}, n) <==> MarkedBy(t, done, n) || n in Marks(t[k]) {
      if n in Marks(t[k]) { assert k in done + {k}; }
      if MarkedBy(t, done, n) {
        var j :| j in done && j in t && Listable(j) && n in Marks(t[j]);
        assert j in done + {k};
      }
    }
  }
}
