/** Commit graphs as the object database shows them: each commit that can be
    found, with its parent ids in order. A parent may be missing from the map
    (a shallow clone, a tag object where a commit was expected). */
module CommitDag {

  type Sha = string
  type Graph = map<Sha, seq<Sha>>

  /** A walk from child to parent, one parent edge at a time. */
  ghost predicate IsPath(g: Graph, p: seq<Sha>) {
    && |p| > 0
    && forall i :: 0 <= i < |p| - 1 ==> p[i] in g && p[i + 1] in g[p[i]]
  }

  ghost predicate Reaches(g: Graph, a: Sha, b: Sha) {
    exists p :: IsPath(g, p) && p[0] == a && p[|p| - 1] == b
  }

  /** `b` is a proper ancestor of `a`: at least one parent edge away. */
  ghost predicate Descends(g: Graph, a: Sha, b: Sha) {
    a in g && exists m :: m in g[a] && Reaches(g, m, b)
  }

  ghost predicate Acyclic(g: Graph) {
    forall c :: !Descends(g, c, c)
  }

  ghost predicate ReachedFrom(g: Graph, heads: seq<Sha>, c: Sha) {
    exists h :: h in heads && Reaches(g, h, c)
  }

  lemma ReachesSelf(g: Graph, a: Sha)
    ensures Reaches(g, a, a)
  {
    assert IsPath(g, [a]);
  }

  lemma ReachesStep(g: Graph, a: Sha, m: Sha, b: Sha)
    requires a in g && m in g[a] && Reaches(g, m, b)
    ensures Reaches(g, a, b)
  {
    var p :| IsPath(g, p) && p[0] == m && p[|p| - 1] == b;
    var q := [a] + p;
    assert forall i :: 0 < i < |q| ==> q[i] == p[i - 1];
    assert IsPath(g, q);
  }

  lemma ReachesTransitive(g: Graph, a: Sha, b: Sha, c: Sha)
    requires Reaches(g, a, b) && Reaches(g, b, c)
    ensures Reaches(g, a, c)
  {
    var p :| IsPath(g, p) && p[0] == a && p[|p| - 1] == b;
    var q :| IsPath(g, q) && q[0] == b && q[|q| - 1] == c;
    var r := p + q[1..];
    forall i | 0 <= i < |r| - 1
      ensures r[i] in g && r[i + 1] in g[r[i]]
    {
      if i < |p| - 1 {
      } else {
        assert r[i] == q[i - (|p| - 1)] && r[i + 1] == q[i + 1 - (|p| - 1)];
      }
    }
    assert IsPath(g, r);
  }

  lemma DescendsExtend(g: Graph, a: Sha, b: Sha, c: Sha)
    requires Descends(g, a, b) && Reaches(g, b, c)
    ensures Descends(g, a, c)
  {
    var m :| m in g[a] && Reaches(g, m, b);
    ReachesTransitive(g, m, b, c);
  }

  /** A set closed under parents holds everything a member reaches. */
  lemma {:induction false} ClosedUnderReach(g: Graph, s: set<Sha>, p: seq<Sha>)
    requires forall c :: c in s && c in g ==> forall m :: m in g[c] ==> m in s
    requires IsPath(g, p) && p[0] in s
    ensures p[|p| - 1] in s
  {
    if |p| > 1 {
      assert IsPath(g, p[1..]) by {
        assert forall i :: 0 <= i < |p[1..]| ==> p[1..][i] == p[i + 1];
      }
      ClosedUnderReach(g, s, p[1..]);
    }
  }
}
