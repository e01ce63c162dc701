/** Linearising the commit graph for ingest: a depth-first walk that marks a
    commit on entry, recurses into its parents and appends the commit last. */
module IngestOrder {
  import opened CommitDag

  ghost predicate Distinct(s: seq<Sha>) {
    forall i, j :: 0 <= i < j < |s| ==> s[i] != s[j]
  }

  /** Every commit comes after all of its parents. */
  ghost predicate ParentsFirst(g: Graph, order: seq<Sha>) {
    forall i :: 0 <= i < |order| ==> order[i] in g && forall m :: m in g[order[i]] ==> m in order[..i]
  }

  /** Marked but not yet appended: the commits still on the recursion stack. */
  ghost predicate OnStack(visiting: set<Sha>, ordered: seq<Sha>, c: Sha) {
    c in visiting && c !in ordered
  }

  ghost predicate Consistent(g: Graph, visiting: set<Sha>, ordered: seq<Sha>) {
    && Distinct(ordered)
    && ParentsFirst(g, ordered)
    && forall c :: c in ordered ==> c in visiting
  }

  lemma AppendKeeps(g: Graph, order: seq<Sha>, c: Sha)
    requires Distinct(order) && ParentsFirst(g, order) && c !in order
    requires c in g && forall m :: m in g[c] ==> m in order
    ensures Distinct(order + [c]) && ParentsFirst(g, order + [c])
  {
    var o := order + [c];
    forall i | 0 <= i < |o|
      ensures o[i] in g && forall m :: m in g[o[i]] ==> m in o[..i]
    {
      assert o[..i] == order[..i];
    }
  }

  /** A commit on the stack is a descendant of the next parent too. */
  lemma StackDescends(g: Graph, id: Sha, parent: Sha, visiting: set<Sha>, ordered: seq<Sha>)
    requires id in g && parent in g[id]
    requires forall x :: OnStack(visiting, ordered, x) ==> x == id || Descends(g, x, id)
    ensures forall x :: OnStack(visiting, ordered, x) ==> Descends(g, x, parent)
  {
    ReachesSelf(g, parent);
    forall x | OnStack(visiting, ordered, x)
      ensures Descends(g, x, parent)
    {
      if x != id {
        ReachesStep(g, id, parent, parent);
        DescendsExtend(g, x, id, parent);
      }
    }
  }

  lemma AppendedReached(g: Graph, id: Sha, parent: Sha, before: seq<Sha>, order: seq<Sha>)
    requires id in g && parent in g[id]
    requires forall x :: x in order && x !in before ==> Reaches(g, parent, x)
    ensures forall x :: x in order && x !in before ==> Reaches(g, id, x)
  {
    forall x | x in order && x !in before ensures Reaches(g, id, x) { ReachesStep(g, id, parent, x); }
  }

  method PushCommit(g: Graph, id: Sha, visiting: set<Sha>, ordered: seq<Sha>)
    returns (ok: bool, visited: set<Sha>, order: seq<Sha>)
    requires Acyclic(g) && Consistent(g, visiting, ordered)
    requires forall x :: OnStack(visiting, ordered, x) ==> Descends(g, x, id)
    ensures ok ==> Consistent(g, visited, order) && ordered <= order && id in order
    ensures ok ==> forall x :: OnStack(visited, order, x) <==> OnStack(visiting, ordered, x)
    ensures ok ==> forall x :: x in order && x !in ordered ==> Reaches(g, id, x)
    ensures visiting <= visited
    ensures !ok ==> exists x :: Reaches(g, id, x) && x !in g
    decreases |g.Keys - visiting|
  {
    visited, order := visiting, ordered;
    if id in visited {
      assert !Descends(g, id, id);
      return true, visited, order;
    }
    visited := visited + {id};
    ReachesSelf(g, id);
    if id !in g {
      return false, visited, order;
    }
    var i := 0;
    while i < |g[id]|
      invariant 0 <= i <= |g[id]|
      invariant visiting + {id} <= visited
      invariant Consistent(g, visited, order) && ordered <= order
      invariant forall x :: OnStack(visited, order, x) <==> x == id || OnStack(visiting, ordered, x)
      invariant forall x :: x in order && x !in ordered ==> Reaches(g, id, x)
      invariant forall m :: m in g[id][..i] ==> m in order
    {
      var parent := g[id][i];
      ReachesSelf(g, parent);
      StackDescends(g, id, parent, visited, order);
      FewerLeft(g, visiting, visited, id);
      ghost var before := order;
      ok, visited, order := PushCommit(g, parent, visited, order);
      if !ok {
        ghost var x :| Reaches(g, parent, x) && x !in g;
        ReachesStep(g, id, parent, x);
        return;
      }
      AppendedReached(g, id, parent, before, order);
      NextListed(g[id], i, order);
      i := i + 1;
    }
    assert g[id][..i] == g[id];
    assert OnStack(visited, order, id);
    AppendKeeps(g, order, id);
    order := order + [id];
    ok := true;
  }

  lemma FewerLeft(g: Graph, visiting: set<Sha>, visited: set<Sha>, id: Sha)
    requires id in g && id !in visiting && visiting <= visited && id in visited
    ensures |g.Keys - visited| < |g.Keys - visiting|
  {
    assert id in g.Keys - visiting && id !in g.Keys - visited;
    SmallerSet(g.Keys - visited, g.Keys - visiting);
  }

  lemma NextListed(parents: seq<Sha>, i: nat, order: seq<Sha>)
    requires i < |parents| && parents[i] in order && forall m :: m in parents[..i] ==> m in order
    ensures forall m :: m in parents[..i + 1] ==> m in order
  {
    assert parents[..i + 1] == parents[..i] + [parents[i]];
  }

  lemma SmallerSet(a: set<Sha>, b: set<Sha>)
    requires a < b
    ensures |a| < |b|
  {
    assert b == a + (b - a);
    var x :| x in b && x !in a;
    assert x in b - a;
  }

  /** Only an acyclic history has such an order: a listed commit is never its
      own proper ancestor. */
  lemma OrderIsAcyclic(g: Graph, order: seq<Sha>, c: Sha)
    requires Distinct(order) && ParentsFirst(g, order) && c in order
    ensures !Descends(g, c, c)
  {
    if Descends(g, c, c) {
      var i :| 0 <= i < |order| && order[i] == c;
      var m :| m in g[c] && Reaches(g, m, c);
      var p :| IsPath(g, p) && p[0] == m && p[|p| - 1] == c;
      var earlier := set x | x in order[..i];
      forall x | x in earlier
        ensures forall n :: n in g[x] ==> n in earlier
      {
        var j :| 0 <= j < i && order[j] == x;
        assert forall n :: n in order[..j] ==> n in order[..i];
      }
      ClosedUnderReach(g, earlier, p);
    }
  }

  lemma ReachedListed(g: Graph, heads: seq<Sha>, order: seq<Sha>)
    requires ParentsFirst(g, order) && forall h :: h in heads ==> h in order
    ensures forall c :: ReachedFrom(g, heads, c) ==> c in order
  {
    forall c | ReachedFrom(g, heads, c)
      ensures c in order
    {
      var h :| h in heads && Reaches(g, h, c);
      var p :| IsPath(g, p) && p[0] == h && p[|p| - 1] == c;
      ParentsListed(g, order);
      ClosedUnderReach(g, (set x | x in order), p);
    }
  }

  lemma ParentsListed(g: Graph, order: seq<Sha>)
    requires ParentsFirst(g, order)
    ensures forall c, m :: c in order && c in g && m in g[c] ==> m in order
  {
    forall c, m | c in order && c in g && m in g[c]
      ensures m in order
    {
      var i :| 0 <= i < |order| && order[i] == c;
      assert m in order[..i];
    }
  }

  /** Reading succeeds exactly when no commit is missing below the heads; the
      result lists each commit reached from a head once, parents first. */
  method ReadGitCommits(g: Graph, heads: seq<Sha>) returns (ok: bool, order: seq<Sha>)
    requires Acyclic(g)
    ensures ok <==> forall c :: ReachedFrom(g, heads, c) ==> c in g
    ensures ok ==> Distinct(order) && ParentsFirst(g, order)
    ensures ok ==> forall c :: c in order <==> ReachedFrom(g, heads, c)
  {
    var visiting: set<Sha> := {};
    order := [];
    var i := 0;
    while i < |heads|
      invariant 0 <= i <= |heads|
      invariant Consistent(g, visiting, order)
      invariant forall x :: !OnStack(visiting, order, x)
      invariant forall h :: h in heads[..i] ==> h in order
      invariant forall c :: c in order ==> ReachedFrom(g, heads, c)
    {
      var before := order;
      ok, visiting, order := PushCommit(g, heads[i], visiting, order);
      if !ok {
        ghost var x :| Reaches(g, heads[i], x) && x !in g;
        assert ReachedFrom(g, heads, x);
        return;
      }
      forall c | c in order
        ensures ReachedFrom(g, heads, c)
      {
        if c !in before {
          assert Reaches(g, heads[i], c);
        }
      }
      assert heads[..i + 1] == heads[..i] + [heads[i]];
      i := i + 1;
    }
    assert heads[..i] == heads;
    ok := true;
    ReachedListed(g, heads, order);
  }
}
