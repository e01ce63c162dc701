/** Deleting a repository by hand, one statement after another: when it gets
    through, what it removes, and that no key is broken on the way. */
module RepoRemoval {
  import opened Common
  import opened MetaTables

  // ---- delete statements; one that would leave a dangling key fails --------

  /** DELETE FROM change_parents WHERE change_id = c OR parent_change_id = c */
  function DropParents(h: History, gone: set<string>): History {
    h.(parents := set p | p in h.parents && p.0 !in gone && p.1 !in gone)
  }

  function DropBookmarks(h: History, r: string): History {
    h.(bookmarks := map b | b in h.bookmarks && b.0 != r :: h.bookmarks[b])
  }

  function DropConflicts(h: History, r: string): History {
    h.(conflicts := map c | c in h.conflicts && h.conflicts[c].repoId != r :: h.conflicts[c])
  }

  function DropAnchors(h: History, r: string): History {
    h.(anchors := map a | a in h.anchors && a.0 != r :: h.anchors[a])
  }

  function ChangesOf(h: History, r: string): set<string> {
    set c | c in h.changes && h.changes[c].repoId == r
  }

  function DropChanges(h: History, r: string): Option<History> {
    var gone := ChangesOf(h, r);
    if (exists p :: p in h.parents && (p.0 in gone || p.1 in gone)) || (exists c :: c in h.conflicts && h.conflicts[c].changeId in gone)
    then None
    else Some(h.(changes := h.changes - gone))
  }

  /** Deleting runs takes their jobs along. */
  function DropRuns(c: Ci, gone: set<int>): Ci {
    Ci(c.workflows, c.runs - gone, map j | j in c.jobs && c.jobs[j].runId !in gone :: c.jobs[j])
  }

  function RunsOf(c: Ci, r: string): set<int> {
    set x | x in c.runs && c.runs[x].repoId == r
  }

  function WorkflowsOf(c: Ci, r: string): set<int> {
    set w | w in c.workflows && c.workflows[w].repoId == r
  }

  /** Deleting workflows takes their runs along, whichever repository those are in. */
  function DropWorkflows(c: Ci, r: string): Ci {
    var gone := WorkflowsOf(c, r);
    DropRuns(c, set x | x in c.runs && c.runs[x].workflowId in gone).(workflows := c.workflows - gone)
  }

  function MrsOf(v: Reviews, r: string): set<int> {
    set m | m in v.mrs && v.mrs[m].repoId == r
  }

  /** Deleting merge requests takes their reviews and comments along. */
  function DropMrs(v: Reviews, gone: set<int>): Reviews {
    Reviews(v.mrs - gone,
            map n | n in v.reviews && v.reviews[n].mrId !in gone :: v.reviews[n],
            map n | n in v.comments && v.comments[n].mrId !in gone :: v.comments[n])
  }

  predicate InHistory(h: History, r: string) {
    || (exists c :: c in h.changes && h.changes[c].repoId == r)
    || (exists b :: b in h.bookmarks && b.0 == r)
    || (exists a :: a in h.anchors && a.0 == r)
    || (exists c :: c in h.conflicts && h.conflicts[c].repoId == r)
  }

  predicate InReviews(v: Reviews, r: string) {
    exists m :: m in v.mrs && v.mrs[m].repoId == r
  }

  predicate InCi(c: Ci, r: string) {
    || (exists w :: w in c.workflows && c.workflows[w].repoId == r)
    || (exists x :: x in c.runs && c.runs[x].repoId == r)
  }

  function DropRepo(t: Tables, r: string): Option<Tables> {
    if InHistory(t.history, r) || InReviews(t.reviews, r) || InCi(t.ci, r) then None
    else Some(t.(repos := t.repos - {r}))
  }

  // ---- the states a removal passes through --------------------------------

  /** History without everything that hangs on the changes of `r`. */
  function ClearedHistory(h: History, r: string): History {
    DropAnchors(DropConflicts(DropBookmarks(DropParents(h, ChangesOf(h, r)), r), r), r)
  }

  function ClearedCi(c: Ci, r: string): Ci {
    DropWorkflows(DropRuns(c, RunsOf(c, r)), r)
  }

  /** Where a removal stops when the changes of `r` are still referenced. */
  function Cleared(t: Tables, r: string): Tables {
    t.(history := ClearedHistory(t.history, r), ci := ClearedCi(t.ci, r))
  }

  /** The tables without the repository. */
  function Purged(t: Tables, r: string): Tables {
    var h := ClearedHistory(t.history, r);
    Tables(t.orgs, t.repos - {r}, h.(changes := h.changes - ChangesOf(h, r)), DropMrs(t.reviews, MrsOf(t.reviews, r)), ClearedCi(t.ci, r))
  }

  /** A conflict filed under another repository names a change of `r`. */
  predicate Held(h: History, r: string) {
    exists c :: c in h.conflicts && h.conflicts[c].repoId != r && h.conflicts[c].changeId in ChangesOf(h, r)
  }

  // ---- no statement breaks a key ------------------------------------------

  lemma DropsKeepHistory(live: set<string>, h: History, r: string, gone: set<string>)
    requires HistoryKeys(live, h)
    ensures HistoryKeys(live, DropParents(h, gone)) && HistoryKeys(live, DropBookmarks(h, r))
    ensures HistoryKeys(live, DropConflicts(h, r)) && HistoryKeys(live, DropAnchors(h, r))
    ensures DropChanges(h, r).Some? ==> HistoryKeys(live, DropChanges(h, r).value)
  {
  }

  lemma DropRunsKeeps(live: set<string>, c: Ci, gone: set<int>)
    requires CiKeys(live, c)
    ensures CiKeys(live, DropRuns(c, gone))
  {
  }

  lemma DropWorkflowsKeeps(live: set<string>, c: Ci, r: string)
    requires CiKeys(live, c)
    ensures CiKeys(live, DropWorkflows(c, r))
  {
  }

  lemma DropMrsKeeps(live: set<string>, v: Reviews, gone: set<int>)
    requires ReviewKeys(live, v)
    ensures ReviewKeys(live, DropMrs(v, gone))
  {
  }

  lemma DropRepoKeeps(t: Tables, r: string)
    requires Keys(t) && DropRepo(t, r).Some?
    ensures Keys(DropRepo(t, r).value)
  {
    var live := t.repos.Keys - {r};
    assert HistoryKeys(live, t.history);
    assert ReviewKeys(live, t.reviews);
    assert CiKeys(live, t.ci);
    assert (t.repos - {r}).Keys == live;
  }

  // ---- when the changes can go ---------------------------------------------

  lemma ClearedShape(h: History, r: string)
    ensures var k := ClearedHistory(h, r);
      && k.changes == h.changes && k.parents == DropParents(h, ChangesOf(h, r)).parents
      && k.bookmarks == DropBookmarks(h, r).bookmarks && k.anchors == DropAnchors(h, r).anchors
      && k.conflicts == DropConflicts(h, r).conflicts
  {
  }

  /** The changes go exactly when no other repository's conflict holds them. */
  lemma ChangesGo(h: History, r: string)
    ensures DropChanges(ClearedHistory(h, r), r).None? <==> Held(h, r)
  {
    var k := ClearedHistory(h, r);
    ClearedShape(h, r);
    assert ChangesOf(k, r) == ChangesOf(h, r);
    if Held(h, r) {
      var c :| c in h.conflicts && h.conflicts[c].repoId != r && h.conflicts[c].changeId in ChangesOf(h, r);
      assert c in k.conflicts && k.conflicts[c].changeId in ChangesOf(k, r);
    }
  }

  /** Once everything else is gone, so can be the repository. */
  lemma RepoGoes(t: Tables, r: string)
    ensures DropRepo(Purged(t, r).(repos := t.repos), r) == Some(Purged(t, r))
  {
    var u := Purged(t, r).(repos := t.repos);
    ClearedShape(t.history, r);
    assert !InHistory(u.history, r);
    assert !InReviews(u.reviews, r);
    assert !InCi(u.ci, r);
  }

  // ---- what a removal removes ----------------------------------------------

  /** A row belongs to the repository it names; a review or comment to that of
      its merge request, a job to that of its run, an edge to that of its child. */
  ghost predicate HistoryGone(h: History, k: History, r: string)
    requires forall p :: p in h.parents ==> p.0 in h.changes && p.1 in h.changes
  {
    && (forall c :: c in k.changes <==> c in h.changes && h.changes[c].repoId != r)
    && (forall b :: b in k.bookmarks <==> b in h.bookmarks && b.0 != r)
    && (forall a :: a in k.anchors <==> a in h.anchors && a.0 != r)
    && (forall c :: c in k.conflicts <==> c in h.conflicts && h.conflicts[c].repoId != r)
    && (forall p :: p in k.parents <==> p in h.parents && h.changes[p.0].repoId != r)
  }

  ghost predicate ReviewsGone(v: Reviews, w: Reviews, r: string)
    requires forall n :: n in v.reviews ==> v.reviews[n].mrId in v.mrs
    requires forall n :: n in v.comments ==> v.comments[n].mrId in v.mrs
  {
    && (forall m :: m in w.mrs <==> m in v.mrs && v.mrs[m].repoId != r)
    && (forall n :: n in w.reviews <==> n in v.reviews && v.mrs[v.reviews[n].mrId].repoId != r)
    && (forall n :: n in w.comments <==> n in v.comments && v.mrs[v.comments[n].mrId].repoId != r)
  }

  ghost predicate CiGone(c: Ci, d: Ci, r: string)
    requires forall j :: j in c.jobs ==> c.jobs[j].runId in c.runs
  {
    && (forall w :: w in d.workflows <==> w in c.workflows && c.workflows[w].repoId != r)
    && (forall x :: x in d.runs <==> x in c.runs && c.runs[x].repoId != r)
    && (forall j :: j in d.jobs <==> j in c.jobs && c.runs[c.jobs[j].runId].repoId != r)
  }

  /** What is left is as it was. */
  ghost predicate RestUntouched(t: Tables, u: Tables) {
    && u.orgs == t.orgs
    && (forall x :: x in t.repos && x in u.repos ==> u.repos[x] == t.repos[x])
    && (forall x :: x in t.history.changes && x in u.history.changes ==> u.history.changes[x] == t.history.changes[x])
    && (forall x :: x in t.history.bookmarks && x in u.history.bookmarks ==> u.history.bookmarks[x] == t.history.bookmarks[x])
    && (forall x :: x in t.history.anchors && x in u.history.anchors ==> u.history.anchors[x] == t.history.anchors[x])
    && (forall x :: x in t.history.conflicts && x in u.history.conflicts ==> u.history.conflicts[x] == t.history.conflicts[x])
    && (forall x :: x in t.reviews.mrs && x in u.reviews.mrs ==> u.reviews.mrs[x] == t.reviews.mrs[x])
    && (forall x :: x in t.reviews.reviews && x in u.reviews.reviews ==> u.reviews.reviews[x] == t.reviews.reviews[x])
    && (forall x :: x in t.reviews.comments && x in u.reviews.comments ==> u.reviews.comments[x] == t.reviews.comments[x])
    && (forall x :: x in t.ci.workflows && x in u.ci.workflows ==> u.ci.workflows[x] == t.ci.workflows[x])
    && (forall x :: x in t.ci.runs && x in u.ci.runs ==> u.ci.runs[x] == t.ci.runs[x])
    && (forall x :: x in t.ci.jobs && x in u.ci.jobs ==> u.ci.jobs[x] == t.ci.jobs[x])
  }

  /** No other repository's change has a parent in `r`. */
  predicate EdgesInside(h: History, r: string)
    requires forall p :: p in h.parents ==> p.0 in h.changes && p.1 in h.changes
  {
    forall p :: p in h.parents && h.changes[p.1].repoId == r ==> h.changes[p.0].repoId == r
  }

  /** No other repository's run uses a workflow of `r`. */
  predicate RunsInside(c: Ci, r: string)
    requires forall x :: x in c.runs ==> c.runs[x].workflowId in c.workflows
  {
    forall x :: x in c.runs && c.workflows[c.runs[x].workflowId].repoId == r ==> c.runs[x].repoId == r
  }

  lemma PurgedHistory(live: set<string>, h: History, r: string)
    requires HistoryKeys(live, h)
    ensures var k := ClearedHistory(h, r).(changes := h.changes - ChangesOf(h, r));
      HistoryGone(h, k, r) <==> EdgesInside(h, r)
  {
    ClearedShape(h, r);
    var k := ClearedHistory(h, r).(changes := h.changes - ChangesOf(h, r));
    assert forall p :: p in k.parents <==> p in h.parents && h.changes[p.0].repoId != r && h.changes[p.1].repoId != r;
  }

  lemma PurgedReviews(live: set<string>, v: Reviews, r: string)
    requires ReviewKeys(live, v)
    ensures ReviewsGone(v, DropMrs(v, MrsOf(v, r)), r)
  {
  }

  lemma ClearedCiShape(live: set<string>, c: Ci, r: string)
    requires CiKeys(live, c)
    ensures var d := ClearedCi(c, r);
      && (forall w :: w in d.workflows <==> w in c.workflows && c.workflows[w].repoId != r)
      && (forall x :: x in d.runs <==> x in c.runs && c.runs[x].repoId != r && c.workflows[c.runs[x].workflowId].repoId != r)
      && (forall j :: j in d.jobs <==> j in c.jobs && c.jobs[j].runId in d.runs)
  {
    var d1 := DropRuns(c, RunsOf(c, r));
    assert forall x :: x in d1.runs <==> x in c.runs && c.runs[x].repoId != r;
    assert WorkflowsOf(d1, r) == WorkflowsOf(c, r);
  }

  lemma PurgedCi(live: set<string>, c: Ci, r: string)
    requires CiKeys(live, c)
    ensures CiGone(c, ClearedCi(c, r), r) <==> RunsInside(c, r)
  {
    ClearedCiShape(live, c, r);
    var d := ClearedCi(c, r);
    if CiGone(c, d, r) {
      forall x | x in c.runs && c.workflows[c.runs[x].workflowId].repoId == r
        ensures c.runs[x].repoId == r
      {
        assert x !in d.runs;
      }
    }
  }

  /** A removal that gets through removes exactly the repository's rows,
      cascaded ones included, if and only if no run and no parent edge of
      another repository hangs on its workflows or changes. */
  lemma PurgedIsExact(t: Tables, r: string)
    requires Keys(t)
    ensures var u := Purged(t, r);
      && RestUntouched(t, u)
      && u.repos.Keys == t.repos.Keys - {r}
      && ReviewsGone(t.reviews, u.reviews, r)
      && (HistoryGone(t.history, u.history, r) <==> EdgesInside(t.history, r))
      && (CiGone(t.ci, u.ci, r) <==> RunsInside(t.ci, r))
  {
    PurgedHistory(t.repos.Keys, t.history, r);
    PurgedReviews(t.repos.Keys, t.reviews, r);
    PurgedCi(t.repos.Keys, t.ci, r);
    PurgedUntouched(t, r);
  }

  lemma PurgedUntouched(t: Tables, r: string)
    ensures RestUntouched(t, Purged(t, r))
  {
    ClearedShape(t.history, r);
  }
}
