/** The statements a repository's removal is made of, each committed on its own,
    and the list of them for one removal. */
module DeleteStatements {
  import opened Common
  import opened MetaTables
  import opened RepoRemoval

  datatype Delete =
    | ParentsOf(changeId: string)
    | BookmarksIn(repoId: string)
    | ConflictsIn(repoId: string)
    | AnchorsIn(repoId: string)
    | RunsIn(repoId: string)
    | WorkflowsIn(repoId: string)
    | ChangesIn(repoId: string)
    | OneMr(id: int)
    | RepoRow(repoId: string)

  /** The tables after one statement; None if it would break a key. */
  function ApplyDelete(t: Tables, d: Delete): Option<Tables> {
    match d
    case ParentsOf(c) => Some(t.(history := DropParents(t.history, {c})))
    case BookmarksIn(r) => Some(t.(history := DropBookmarks(t.history, r)))
    case ConflictsIn(r) => Some(t.(history := DropConflicts(t.history, r)))
    case AnchorsIn(r) => Some(t.(history := DropAnchors(t.history, r)))
    case RunsIn(r) => Some(t.(ci := DropRuns(t.ci, RunsOf(t.ci, r))))
    case WorkflowsIn(r) => Some(t.(ci := DropWorkflows(t.ci, r)))
    case ChangesIn(r) =>
      var h := DropChanges(t.history, r);
      if h.None? then None else Some(t.(history := h.value))
    case OneMr(m) => Some(t.(reviews := DropMrs(t.reviews, {m})))
    case RepoRow(r) => DropRepo(t, r)
  }

  lemma DeleteKeeps(t: Tables, d: Delete)
    requires Keys(t) && ApplyDelete(t, d).Some?
    ensures Keys(ApplyDelete(t, d).value)
  {
    var live := t.repos.Keys;
    match d
    case ParentsOf(c) => DropsKeepHistory(live, t.history, "", {c});
    case BookmarksIn(r) => DropsKeepHistory(live, t.history, r, {});
    case ConflictsIn(r) => DropsKeepHistory(live, t.history, r, {});
    case AnchorsIn(r) => DropsKeepHistory(live, t.history, r, {});
    case RunsIn(r) => DropRunsKeeps(live, t.ci, RunsOf(t.ci, r));
    case WorkflowsIn(r) => DropWorkflowsKeeps(live, t.ci, r);
    case ChangesIn(r) => DropsKeepHistory(live, t.history, r, {});
    case OneMr(m) => DropMrsKeeps(live, t.reviews, {m});
    case RepoRow(r) => DropRepoKeeps(t, r);
  }

  /** The tables after the statements, one by one; None as soon as one fails. */
  function Replay(t: Tables, ds: seq<Delete>): Option<Tables>
    decreases |ds|
  {
    if ds == [] then Some(t)
    else
      var last := |ds| - 1;
      match Replay(t, ds[..last])
      case None => None
      case Some(u) => ApplyDelete(u, ds[last])
  }

  lemma ReplayOne(t: Tables, ds: seq<Delete>, u: Tables, d: Delete)
    requires Replay(t, ds) == Some(u)
    ensures Replay(t, ds + [d]) == ApplyDelete(u, d)
  {
    assert (ds + [d])[..|ds|] == ds;
  }

  lemma {:induction false} ReplayMore(t: Tables, ds: seq<Delete>, u: Tables, more: seq<Delete>)
    requires Replay(t, ds) == Some(u)
    ensures Replay(t, ds + more) == Replay(u, more)
    decreases |more|
  {
    if more == [] {
      assert ds + more == ds;
    } else {
      var last := |more| - 1;
      ReplayMore(t, ds, u, more[..last]);
      assert (ds + more)[..|ds| + last] == ds + more[..last];
    }
  }

  /** The tables after the first `n` statements satisfy every key. */
  ghost predicate KeysAfter(t: Tables, ds: seq<Delete>, n: nat) {
    n <= |ds| && match Replay(t, ds[..n])
    case None => false
    case Some(u) => Keys(u)
  }

  /** Statements that get through keep every key after each of them. */
  lemma {:induction false} KeysAlong(t: Tables, ds: seq<Delete>, n: nat)
    requires Keys(t) && Replay(t, ds).Some? && n <= |ds|
    ensures KeysAfter(t, ds, n)
    decreases |ds|
  {
    var last := |ds| - 1;
    if ds == [] {
    } else if n < |ds| {
      KeysAlong(t, ds[..last], n);
      assert ds[..last][..n] == ds[..n];
    } else {
      assert ds[..n] == ds;
      KeysAlong(t, ds[..last], last);
      assert ds[..last][..last] == ds[..last];
      DeleteKeeps(Replay(t, ds[..last]).value, ds[last]);
    }
  }

  // ---- the statements of one removal ----------------------------------------------

  /** Each element once, in some order. */
  ghost predicate Lists<T(!new)>(s: seq<T>, all: set<T>) {
    && (forall x :: x in s <==> x in all)
    && (forall i, j :: 0 <= i < j < |s| ==> s[i] != s[j])
  }

  lemma ListsOne<T(!new)>(s: seq<T>, all: set<T>, x: T)
    requires Lists(s, all) && x !in all
    ensures Lists(s + [x], all + {x})
  {
  }

  function ParentDeletes(changeIds: seq<string>): seq<Delete>
    decreases |changeIds|
  {
    if changeIds == [] then []
    else ParentDeletes(changeIds[..|changeIds| - 1]) + [ParentsOf(changeIds[|changeIds| - 1])]
  }

  function MrDeletes(ids: seq<int>): seq<Delete>
    decreases |ids|
  {
    if ids == [] then [] else MrDeletes(ids[..|ids| - 1]) + [OneMr(ids[|ids| - 1])]
  }

  /** The deletes that need no list. */
  function Middle(r: string): seq<Delete> {
    [BookmarksIn(r), ConflictsIn(r), AnchorsIn(r), RunsIn(r), WorkflowsIn(r)]
  }

  /** The statements that take effect; when the changes are held, the rest is
      never reached. */
  function Statements(r: string, changeIds: seq<string>, mrIds: seq<int>, held: bool): seq<Delete> {
    var start := ParentDeletes(changeIds) + Middle(r);
    if held then start else start + [ChangesIn(r)] + MrDeletes(mrIds) + [RepoRow(r)]
  }
}
