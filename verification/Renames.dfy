/** Renaming a repository or an organisation: new ids for repositories, carried
    to every dependent row by ON UPDATE CASCADE. */
module Renames {
  import opened MetaTables

  function At(ids: map<string, string>, r: string): string {
    if r in ids then ids[r] else r
  }

  predicate Injective(ids: map<string, string>, live: set<string>) {
    forall a, b :: a in live && b in live && At(ids, a) == At(ids, b) ==> a == b
  }

  function MovedSet(live: set<string>, ids: map<string, string>): set<string> {
    set r | r in live :: At(ids, r)
  }

  function MovedChanges(changes: map<string, Change>, ids: map<string, string>): map<string, Change> {
    map c | c in changes :: changes[c].(repoId := At(ids, changes[c].repoId))
  }

  function MovedConflicts(conflicts: map<string, Conflict>, ids: map<string, string>): map<string, Conflict> {
    map c | c in conflicts :: conflicts[c].(repoId := At(ids, conflicts[c].repoId))
  }

  /** Rows whose key starts with the repository. */
  function MovedNamed<T>(live: set<string>, rows: map<(string, string), T>, ids: map<string, string>): (moved: map<(string, string), T>)
    requires Injective(ids, live) && forall b :: b in rows ==> b.0 in live
    ensures moved.Keys == set b | b in rows :: (At(ids, b.0), b.1)
    ensures forall b :: b in rows ==> moved[(At(ids, b.0), b.1)] == rows[b]
  {
    map b | b in rows :: (At(ids, b.0), b.1) := rows[b]
  }

  function MovedHistory(live: set<string>, h: History, ids: map<string, string>): History
    requires HistoryKeys(live, h) && Injective(ids, live)
  {
    History(MovedChanges(h.changes, ids), h.parents,
            MovedNamed(live, h.bookmarks, ids),
            MovedNamed(live, h.anchors, ids),
            MovedConflicts(h.conflicts, ids))
  }

  function MovedReviews(v: Reviews, ids: map<string, string>): Reviews {
    v.(mrs := map m | m in v.mrs :: v.mrs[m].(repoId := At(ids, v.mrs[m].repoId)))
  }

  function MovedCi(c: Ci, ids: map<string, string>): Ci {
    Ci(map w | w in c.workflows :: c.workflows[w].(repoId := At(ids, c.workflows[w].repoId)),
       map x | x in c.runs :: c.runs[x].(repoId := At(ids, c.runs[x].repoId)),
       c.jobs)
  }

  function MovedRepos(rows: map<string, Repo>, ids: map<string, string>): (moved: map<string, Repo>)
    requires Injective(ids, rows.Keys)
    ensures moved.Keys == MovedSet(rows.Keys, ids)
    ensures forall r :: r in rows ==> moved[At(ids, r)] == rows[r]
  {
    map r | r in rows :: At(ids, r) := rows[r]
  }

  /** The update of the repository rows and its cascades; `rows` are the updated
      rows under the old ids. */
  function Moved(t: Tables, rows: map<string, Repo>, ids: map<string, string>): Tables
    requires Keys(t) && rows.Keys == t.repos.Keys && Injective(ids, t.repos.Keys)
  {
    Tables(t.orgs, MovedRepos(rows, ids),
           MovedHistory(t.repos.Keys, t.history, ids), MovedReviews(t.reviews, ids), MovedCi(t.ci, ids))
  }

  // ---- the cascades keep the keys ------------------------------------------

  lemma MovedHistoryKeeps(live: set<string>, h: History, ids: map<string, string>)
    requires HistoryKeys(live, h) && Injective(ids, live)
    ensures HistoryKeys(MovedSet(live, ids), MovedHistory(live, h, ids))
  {
  }

  lemma MovedReviewsKeeps(live: set<string>, v: Reviews, ids: map<string, string>)
    requires ReviewKeys(live, v)
    ensures ReviewKeys(MovedSet(live, ids), MovedReviews(v, ids))
  {
  }

  lemma MovedCiKeeps(live: set<string>, c: Ci, ids: map<string, string>)
    requires CiKeys(live, c)
    ensures CiKeys(MovedSet(live, ids), MovedCi(c, ids))
  {
  }

  lemma MovedKeeps(t: Tables, rows: map<string, Repo>, ids: map<string, string>)
    requires Keys(t) && rows.Keys == t.repos.Keys && Injective(ids, t.repos.Keys)
    ensures var u := Moved(t, rows, ids);
      && u.repos.Keys == MovedSet(t.repos.Keys, ids)
      && HistoryKeys(u.repos.Keys, u.history) && ReviewKeys(u.repos.Keys, u.reviews) && CiKeys(u.repos.Keys, u.ci)
  {
    MovedHistoryKeeps(t.repos.Keys, t.history, ids);
    MovedReviewsKeeps(t.repos.Keys, t.reviews, ids);
    MovedCiKeeps(t.repos.Keys, t.ci, ids);
  }

  // ---- moving back ----------------------------------------------------------

  predicate Undoes(ids: map<string, string>, back: map<string, string>, live: set<string>) {
    forall r :: r in live ==> At(back, At(ids, r)) == r
  }

  lemma BackInjective(ids: map<string, string>, back: map<string, string>, live: set<string>)
    requires Undoes(ids, back, live)
    ensures Injective(ids, live) && Injective(back, MovedSet(live, ids))
  {
    forall a, b | a in live && b in live && At(ids, a) == At(ids, b)
      ensures a == b
    {
      assert At(back, At(ids, a)) == a;
    }
  }

  lemma SetBack(live: set<string>, ids: map<string, string>, back: map<string, string>)
    requires Undoes(ids, back, live)
    ensures MovedSet(MovedSet(live, ids), back) == live
  {
    forall r | r in live
      ensures r in MovedSet(MovedSet(live, ids), back)
    {
      assert At(ids, r) in MovedSet(live, ids);
    }
  }

  lemma ReposBack(rows: map<string, Repo>, once: map<string, Repo>, twice: map<string, Repo>, ids: map<string, string>, back: map<string, string>)
    requires Undoes(ids, back, rows.Keys)
    requires once.Keys == MovedSet(rows.Keys, ids) && forall r :: r in rows ==> once[At(ids, r)] == rows[r]
    requires twice.Keys == MovedSet(once.Keys, back) && forall r :: r in once ==> twice[At(back, r)] == once[r]
    ensures twice == rows
  {
    SetBack(rows.Keys, ids, back);
    forall r | r in rows
      ensures twice[r] == rows[r]
    {
      assert At(ids, r) in once;
    }
  }

  lemma ChangesBack(live: set<string>, changes: map<string, Change>, ids: map<string, string>, back: map<string, string>)
    requires Undoes(ids, back, live) && forall c :: c in changes ==> changes[c].repoId in live
    ensures MovedChanges(MovedChanges(changes, ids), back) == changes
  {
    var b := MovedChanges(MovedChanges(changes, ids), back);
    forall c | c in changes ensures b[c] == changes[c] {
      assert At(back, At(ids, changes[c].repoId)) == changes[c].repoId;
    }
  }

  lemma ConflictsBack(live: set<string>, conflicts: map<string, Conflict>, ids: map<string, string>, back: map<string, string>)
    requires Undoes(ids, back, live) && forall c :: c in conflicts ==> conflicts[c].repoId in live
    ensures MovedConflicts(MovedConflicts(conflicts, ids), back) == conflicts
  {
    var b := MovedConflicts(MovedConflicts(conflicts, ids), back);
    forall c | c in conflicts ensures b[c] == conflicts[c] {
      assert At(back, At(ids, conflicts[c].repoId)) == conflicts[c].repoId;
    }
  }

  lemma NamedBack<T>(live: set<string>, rows: map<(string, string), T>, once: map<(string, string), T>, twice: map<(string, string), T>,
                     ids: map<string, string>, back: map<string, string>)
    requires Undoes(ids, back, live) && forall b :: b in rows ==> b.0 in live
    requires once.Keys == set b | b in rows :: (At(ids, b.0), b.1)
    requires forall b :: b in rows ==> once[(At(ids, b.0), b.1)] == rows[b]
    requires twice.Keys == set b | b in once :: (At(back, b.0), b.1)
    requires forall b :: b in once ==> twice[(At(back, b.0), b.1)] == once[b]
    ensures twice == rows
  {
    forall b | b in rows
      ensures b in twice && twice[b] == rows[b]
    {
      var c := (At(ids, b.0), b.1);
      assert c in once && (At(back, c.0), c.1) == b;
    }
    assert twice.Keys <= rows.Keys;
  }

  lemma MovedNamedBack<T>(live: set<string>, rows: map<(string, string), T>, ids: map<string, string>, back: map<string, string>)
    requires Undoes(ids, back, live) && forall b :: b in rows ==> b.0 in live
    requires Injective(ids, live) && Injective(back, MovedSet(live, ids))
    ensures forall b :: b in MovedNamed(live, rows, ids) ==> b.0 in MovedSet(live, ids)
    ensures MovedNamed(MovedSet(live, ids), MovedNamed(live, rows, ids), back) == rows
  {
    var once := MovedNamed(live, rows, ids);
    NamedBack(live, rows, once, MovedNamed(MovedSet(live, ids), once, back), ids, back);
  }

  lemma NamedTablesBack(live: set<string>, h: History, ids: map<string, string>, back: map<string, string>)
    requires HistoryKeys(live, h) && Undoes(ids, back, live) && Injective(ids, live) && Injective(back, MovedSet(live, ids))
    ensures HistoryKeys(MovedSet(live, ids), MovedHistory(live, h, ids))
    ensures var b := MovedHistory(MovedSet(live, ids), MovedHistory(live, h, ids), back);
      b.bookmarks == h.bookmarks && b.anchors == h.anchors
  {
    MovedHistoryKeeps(live, h, ids);
    MovedNamedBack(live, h.bookmarks, ids, back);
    MovedNamedBack(live, h.anchors, ids, back);
  }

  lemma MovedHistoryBack(live: set<string>, h: History, ids: map<string, string>, back: map<string, string>)
    requires HistoryKeys(live, h) && Undoes(ids, back, live) && Injective(ids, live) && Injective(back, MovedSet(live, ids))
    requires HistoryKeys(MovedSet(live, ids), MovedHistory(live, h, ids))
    ensures MovedHistory(MovedSet(live, ids), MovedHistory(live, h, ids), back) == h
  {
    ChangesBack(live, h.changes, ids, back);
    ConflictsBack(live, h.conflicts, ids, back);
    NamedTablesBack(live, h, ids, back);
  }

  lemma MovedReviewsBack(live: set<string>, v: Reviews, ids: map<string, string>, back: map<string, string>)
    requires ReviewKeys(live, v) && Undoes(ids, back, live)
    ensures MovedReviews(MovedReviews(v, ids), back) == v
  {
    var b := MovedReviews(MovedReviews(v, ids), back);
    forall m | m in v.mrs ensures b.mrs[m] == v.mrs[m] {
      assert At(back, At(ids, v.mrs[m].repoId)) == v.mrs[m].repoId;
    }
    assert b.mrs == v.mrs;
  }

  lemma MovedCiBack(live: set<string>, c: Ci, ids: map<string, string>, back: map<string, string>)
    requires CiKeys(live, c) && Undoes(ids, back, live)
    ensures MovedCi(MovedCi(c, ids), back) == c
  {
    var b := MovedCi(MovedCi(c, ids), back);
    forall w | w in c.workflows ensures b.workflows[w] == c.workflows[w] {
      assert At(back, At(ids, c.workflows[w].repoId)) == c.workflows[w].repoId;
    }
    forall x | x in c.runs ensures b.runs[x] == c.runs[x] {
      assert At(back, At(ids, c.runs[x].repoId)) == c.runs[x].repoId;
    }
    assert b.workflows == c.workflows && b.runs == c.runs;
  }
}
