/** Organisations own the ids that start with their name. Renaming one rewrites
    those prefixes; this is when it succeeds, what it does and how it is undone. */
module OrgRename {
  import opened MetaTables
  import opened RepoRemoval
  import opened Renames

  predicate SlashFree(s: string) { '/' !in s }

  function FullName(org: string, name: string): string { org + "/" + name }

  predicate WellNamed(r: string, row: Repo) {
    SlashFree(row.orgId) && SlashFree(row.name) && r == FullName(row.orgId, row.name)
  }

  /** Every repository id is its organisation, a slash and its name. */
  predicate Namespaced(t: Tables) {
    forall r :: r in t.repos ==> WellNamed(r, t.repos[r])
  }

  lemma MovedNames(rows: map<string, Repo>, ids: map<string, string>)
    requires Injective(ids, rows.Keys)
    ensures var moved := MovedRepos(rows, ids);
      (forall r :: r in moved ==> WellNamed(r, moved[r])) <==> (forall s :: s in rows ==> WellNamed(At(ids, s), rows[s]))
  {
    var moved := MovedRepos(rows, ids);
    if forall r :: r in moved ==> WellNamed(r, moved[r]) {
      forall s | s in rows ensures WellNamed(At(ids, s), rows[s]) {
        assert moved[At(ids, s)] == rows[s];
      }
    }
  }

  lemma SplitUnique(a: string, b: string, c: string, d: string)
    requires SlashFree(a) && SlashFree(c) && FullName(a, b) == FullName(c, d)
    ensures a == c && b == d
  {
    var s := FullName(a, b);
    assert s[|a|] == '/' && s[|c|] == '/';
    assert |c| <= |a| && |a| <= |c|;
    assert s[..|a|] == a && s[..|c|] == c;
    assert s[|a| + 1..] == b && s[|c| + 1..] == d;
  }

  // ---- renaming a repository -----------------------------------------------

  /** What follows the last slash. */
  function LastSegment(s: string): string {
    if s == "" || s[|s| - 1] == '/' then "" else LastSegment(s[..|s| - 1]) + [s[|s| - 1]]
  }

  lemma {:induction false} LastSegmentOf(o: string, n: string)
    requires SlashFree(n)
    ensures LastSegment(FullName(o, n)) == n
  {
    if n != "" {
      var last := |n| - 1;
      LastSegmentOf(o, n[..last]);
      assert FullName(o, n)[..|FullName(o, n)| - 1] == FullName(o, n[..last]);
      assert n == n[..last] + [n[last]];
    }
  }

  lemma {:induction false} LastSegmentSlashFree(s: string)
    ensures SlashFree(LastSegment(s))
  {
    if s != "" && s[|s| - 1] != '/' { LastSegmentSlashFree(s[..|s| - 1]); }
  }

  function RenamedRows(t: Tables, was: string, target: string): (rows: map<string, Repo>)
    requires was in t.repos
    ensures rows.Keys == t.repos.Keys
  {
    t.repos[was := t.repos[was].(name := LastSegment(target))]
  }

  lemma OneIdInjective(live: set<string>, was: string, target: string)
    requires target !in live
    ensures Injective(map[was := target], live)
  {
  }

  function RepoRenamed(t: Tables, was: string, target: string): Tables
    requires Keys(t) && was in t.repos && target !in t.repos
  {
    OneIdInjective(t.repos.Keys, was, target);
    Moved(t, RenamedRows(t, was, target), map[was := target])
  }

  lemma RepoRenameKeeps(t: Tables, was: string, target: string)
    requires Keys(t) && was in t.repos && target !in t.repos
    ensures Keys(RepoRenamed(t, was, target))
  {
    OneIdInjective(t.repos.Keys, was, target);
    MovedKeeps(t, RenamedRows(t, was, target), map[was := target]);
  }

  /** Renaming within the organisation keeps ids and names in step; any other
      new id breaks them. */
  lemma RepoRenameNamespaced(t: Tables, was: string, target: string)
    requires Keys(t) && Namespaced(t) && was in t.repos && target !in t.repos
    ensures Namespaced(RepoRenamed(t, was, target)) <==> exists n :: SlashFree(n) && target == FullName(t.repos[was].orgId, n)
  {
    OneIdInjective(t.repos.Keys, was, target);
    var rows, ids := RenamedRows(t, was, target), map[was := target];
    MovedNames(rows, ids);
    LastSegmentSlashFree(target);
    var org := t.repos[was].orgId;
    if n: string :| SlashFree(n) && target == FullName(org, n) {
      LastSegmentOf(org, n);
      assert WellNamed(At(ids, was), rows[was]);
    }
    if WellNamed(At(ids, was), rows[was]) {
      assert target == FullName(org, LastSegment(target));
    }
    assert RepoRenamed(t, was, target).repos == MovedRepos(rows, ids);
  }

  // ---- renaming an organisation ---------------------------------------------

  function CharBytes(c: char): nat {
    if c as int < 0x80 then 1 else if c as int < 0x800 then 2 else if c as int < 0x10000 then 3 else 4
  }

  predicate Ascii(s: string) {
    forall i :: 0 <= i < |s| ==> s[i] as int < 0x80
  }

  /** The length of a string as the program counts it; SQL counts characters. */
  function Utf8Len(s: string): nat {
    if s == "" then 0 else CharBytes(s[0]) + Utf8Len(s[1..])
  }

  lemma {:induction false} AsciiLen(s: string)
    ensures Utf8Len(s) >= |s|
    ensures Utf8Len(s) == |s| <==> Ascii(s)
  {
    if s != "" {
      AsciiLen(s[1..]);
      assert Ascii(s) ==> Ascii(s[1..]);
      assert CharBytes(s[0]) == 1 && Ascii(s[1..]) ==> Ascii([s[0]] + s[1..]);
      assert s == [s[0]] + s[1..];
    }
  }

  /** SQL's substr from character n + 1 on. */
  function Skip(s: string, n: nat): string {
    if n <= |s| then s[n..] else ""
  }

  function OrgIds(t: Tables, was: string, target: string): map<string, string> {
    map r | r in t.repos && t.repos[r].orgId == was :: target + Skip(r, Utf8Len(was))
  }

  function OrgRows(t: Tables, was: string, target: string): (rows: map<string, Repo>)
    ensures rows.Keys == t.repos.Keys
  {
    map r | r in t.repos :: if t.repos[r].orgId == was then t.repos[r].(orgId := target) else t.repos[r]
  }

  /** A rewritten id meets another repository's old or new one. */
  predicate Clash(ids: map<string, string>, live: set<string>) {
    exists r, s :: r in ids && r in live && s in live && r != s && (ids[r] == s || ids[r] == At(ids, s))
  }

  lemma NoClashInjective(ids: map<string, string>, live: set<string>)
    requires !Clash(ids, live)
    ensures Injective(ids, live)
  {
    forall a, b | a in live && b in live && At(ids, a) == At(ids, b)
      ensures a == b
    {
      if a != b {
        assert a in ids || b in ids;
        assert a in ids ==> Clash(ids, live);
      }
    }
  }

  function OrgRenamed(t: Tables, was: string, target: string): Tables
    requires Keys(t) && !Clash(OrgIds(t, was, target), t.repos.Keys)
  {
    NoClashInjective(OrgIds(t, was, target), t.repos.Keys);
    Moved(t, OrgRows(t, was, target), OrgIds(t, was, target)).(orgs := (t.orgs - {was})[target := target])
  }

  /** Between the two updates the repositories' own key dangles; at commit every
      key holds again. */
  lemma OrgRenameKeeps(t: Tables, was: string, target: string)
    requires Keys(t) && target !in t.orgs && was in t.orgs && !Clash(OrgIds(t, was, target), t.repos.Keys)
    ensures Keys(OrgRenamed(t, was, target))
  {
    var ids, rows := OrgIds(t, was, target), OrgRows(t, was, target);
    NoClashInjective(ids, t.repos.Keys);
    MovedKeeps(t, rows, ids);
    OrgRowsKeyed(t, was, target);
    assert OrgRenamed(t, was, target).repos == MovedRepos(rows, ids);
  }

  lemma OrgRowsKeyed(t: Tables, was: string, target: string)
    requires RepoKeys(t) && !Clash(OrgIds(t, was, target), t.repos.Keys) && Injective(OrgIds(t, was, target), t.repos.Keys)
    ensures RepoKeys(t.(repos := MovedRepos(OrgRows(t, was, target), OrgIds(t, was, target)), orgs := (t.orgs - {was})[target := target]))
  {
    var ids, rows := OrgIds(t, was, target), OrgRows(t, was, target);
    var moved := MovedRepos(rows, ids);
    forall r | r in moved
      ensures moved[r].orgId in (t.orgs - {was})[target := target]
    {
      var s :| s in t.repos && At(ids, s) == r;
      assert moved[r] == rows[s] && t.repos[s].orgId in t.orgs;
    }
  }

  /** The id a repository of the renamed organisation gets. */
  lemma NewId(t: Tables, was: string, target: string, r: string)
    requires Namespaced(t) && r in t.repos && t.repos[r].orgId == was
    ensures Utf8Len(was) == |was| ==> OrgIds(t, was, target)[r] == FullName(target, t.repos[r].name)
    ensures Utf8Len(was) > |was| ==> |OrgIds(t, was, target)[r]| < |FullName(target, t.repos[r].name)|
  {
    assert r == FullName(was, t.repos[r].name);
    assert r[|was|..] == "/" + t.repos[r].name;
    assert target + ("/" + t.repos[r].name) == FullName(target, t.repos[r].name);
  }

  /** In general a new id lacks as many characters after the organisation as the
      old name has bytes more than characters. */
  lemma IdsCut(t: Tables, was: string, target: string, r: string)
    requires Namespaced(t) && r in t.repos && t.repos[r].orgId == was
    ensures Utf8Len(was) >= |was|
    ensures var cut, rest := Utf8Len(was) - |was|, "/" + t.repos[r].name;
      OrgIds(t, was, target)[r] == target + (if cut <= |rest| then rest[cut..] else "")
  {
    AsciiLen(was);
    SameId(was, t.repos[r].name);
    SkipPast(was, "/" + t.repos[r].name, Utf8Len(was));
  }

  lemma SameId(o: string, n: string)
    ensures FullName(o, n) == o + ("/" + n)
  {
  }

  lemma SkipPast(a: string, b: string, n: nat)
    requires n >= |a|
    ensures Skip(a + b, n) == if n - |a| <= |b| then b[n - |a|..] else ""
  {
    if n <= |a + b| { assert (a + b)[n..] == b[n - |a|..]; }
  }

  /** Onto a free name, a rename never meets another repository. */
  lemma NeverClashes(t: Tables, was: string, target: string)
    requires Keys(t) && Namespaced(t) && target !in t.orgs && SlashFree(target) && Ascii(was)
    ensures !Clash(OrgIds(t, was, target), t.repos.Keys)
  {
    AsciiLen(was);
    var ids := OrgIds(t, was, target);
    forall r, s | r in ids && s in t.repos && r != s
      ensures ids[r] != s && ids[r] != At(ids, s)
    {
      NewId(t, was, target, r);
      if ids[r] == s {
        SplitUnique(target, t.repos[r].name, t.repos[s].orgId, t.repos[s].name);
      }
      if s in ids && ids[r] == ids[s] {
        NewId(t, was, target, s);
        SplitUnique(target, t.repos[r].name, target, t.repos[s].name);
      }
    }
  }

  /** Names and ids stay in step exactly when the old name is ASCII, or the
      organisation holds no repository. */
  lemma OrgRenameNamespaced(t: Tables, was: string, target: string)
    requires Keys(t) && Namespaced(t) && SlashFree(target) && !Clash(OrgIds(t, was, target), t.repos.Keys)
    ensures Namespaced(OrgRenamed(t, was, target)) <==>
      (Ascii(was) || (forall r :: r in t.repos ==> t.repos[r].orgId != was))
  {
    var ids, rows := OrgIds(t, was, target), OrgRows(t, was, target);
    NoClashInjective(ids, t.repos.Keys);
    MovedNames(rows, ids);
    AsciiLen(was);
    forall r | r in rows
      ensures WellNamed(At(ids, r), rows[r]) <==> (t.repos[r].orgId != was || Utf8Len(was) == |was|)
    {
      if t.repos[r].orgId == was { NewId(t, was, target, r); }
    }
    assert OrgRenamed(t, was, target).repos == MovedRepos(rows, ids);
  }

  lemma OrgReposMove(t: Tables, was: string, target: string)
    requires Namespaced(t) && Ascii(was) && Injective(OrgIds(t, was, target), t.repos.Keys)
    ensures var moved := MovedRepos(OrgRows(t, was, target), OrgIds(t, was, target));
      && |moved.Keys| == |t.repos.Keys|
      && (forall r :: r in t.repos && t.repos[r].orgId != was ==> r in moved && moved[r] == t.repos[r])
      && (forall r :: r in t.repos && t.repos[r].orgId == was ==>
            var n := FullName(target, t.repos[r].name);
            n in moved && moved[n] == t.repos[r].(orgId := target))
  {
    AsciiLen(was);
    var ids, rows := OrgIds(t, was, target), OrgRows(t, was, target);
    var moved := MovedRepos(rows, ids);
    MovedCount(rows.Keys, ids);
    forall r | r in t.repos
      ensures At(ids, r) in moved && moved[At(ids, r)] == rows[r]
      ensures t.repos[r].orgId != was ==> At(ids, r) == r
      ensures t.repos[r].orgId == was ==> At(ids, r) == FullName(target, t.repos[r].name)
    {
      if t.repos[r].orgId == was { NewId(t, was, target, r); }
    }
  }

  /** What a caller sees of a rename: every repository of the organisation, under
      the new name, and every other one where it was. */
  lemma OrgRenameMoves(t: Tables, was: string, target: string)
    requires Keys(t) && Namespaced(t) && target !in t.orgs && SlashFree(target) && Ascii(was)
    requires !Clash(OrgIds(t, was, target), t.repos.Keys)
    ensures var u := OrgRenamed(t, was, target);
      && |u.repos.Keys| == |t.repos.Keys| && u.orgs == (t.orgs - {was})[target := target]
      && (forall r :: r in t.repos && t.repos[r].orgId != was ==> r in u.repos && u.repos[r] == t.repos[r])
      && (forall r :: r in t.repos && t.repos[r].orgId == was ==>
            var n := FullName(target, t.repos[r].name);
            n in u.repos && u.repos[n] == t.repos[r].(orgId := target))
  {
    NoClashInjective(OrgIds(t, was, target), t.repos.Keys);
    OrgReposMove(t, was, target);
  }

  lemma HistoryFollows(live: set<string>, h: History, ids: map<string, string>, r: string)
    requires HistoryKeys(live, h) && Injective(ids, live) && r in live
    ensures ChangesOf(MovedHistory(live, h, ids), At(ids, r)) == ChangesOf(h, r)
  {
    forall c | c in h.changes
      ensures h.changes[c].repoId == r <==> At(ids, h.changes[c].repoId) == At(ids, r)
    {
    }
  }

  lemma NamedFollow<T>(live: set<string>, rows: map<(string, string), T>, ids: map<string, string>, r: string, name: string)
    requires Injective(ids, live) && r in live && forall b :: b in rows ==> b.0 in live
    ensures var moved, n := MovedNamed(live, rows, ids), At(ids, r);
      && ((n, name) in moved <==> (r, name) in rows)
      && ((r, name) in rows ==> moved[(n, name)] == rows[(r, name)])
  {
    var moved, n := MovedNamed(live, rows, ids), At(ids, r);
    if (n, name) in moved {
      var b :| b in rows && (At(ids, b.0), b.1) == (n, name);
      assert b == (r, name);
    }
    if (r, name) in rows {
      assert moved[(At(ids, (r, name).0), (r, name).1)] == rows[(r, name)];
    }
  }

  lemma MrsFollow(live: set<string>, v: Reviews, ids: map<string, string>, r: string)
    requires ReviewKeys(live, v) && Injective(ids, live) && r in live
    ensures MrsOf(MovedReviews(v, ids), At(ids, r)) == MrsOf(v, r)
  {
    forall m | m in v.mrs ensures v.mrs[m].repoId == r <==> At(ids, v.mrs[m].repoId) == At(ids, r) {
    }
  }

  lemma WorkflowsFollow(live: set<string>, c: Ci, ids: map<string, string>, r: string)
    requires CiKeys(live, c) && Injective(ids, live) && r in live
    ensures WorkflowsOf(MovedCi(c, ids), At(ids, r)) == WorkflowsOf(c, r)
  {
    forall w | w in c.workflows ensures c.workflows[w].repoId == r <==> At(ids, c.workflows[w].repoId) == At(ids, r) {
    }
  }

  lemma RunsFollow(live: set<string>, c: Ci, ids: map<string, string>, r: string)
    requires CiKeys(live, c) && Injective(ids, live) && r in live
    ensures RunsOf(MovedCi(c, ids), At(ids, r)) == RunsOf(c, r)
  {
    forall x | x in c.runs ensures c.runs[x].repoId == r <==> At(ids, c.runs[x].repoId) == At(ids, r) {
    }
  }

  /** Rows whose key starts with the repository, under the new ids. */
  ghost predicate NamedRowsFollow<T(!new)>(live: set<string>, rows: map<(string, string), T>, moved: map<(string, string), T>, ids: map<string, string>) {
    && (forall r, name :: r in live ==> ((At(ids, r), name) in moved <==> (r, name) in rows))
    && (forall r, name :: r in live && (r, name) in rows ==> moved[(At(ids, r), name)] == rows[(r, name)])
  }

  /** Each dependent row is as it was, but for the repository it names. */
  ghost predicate RowsFollow(t: Tables, u: Tables, ids: map<string, string>) {
    var h, k := t.history, u.history;
    && k.changes.Keys == h.changes.Keys && k.conflicts.Keys == h.conflicts.Keys && k.parents == h.parents
    && (forall c :: c in h.changes ==> k.changes[c] == h.changes[c].(repoId := At(ids, h.changes[c].repoId)))
    && (forall c :: c in h.conflicts ==> k.conflicts[c] == h.conflicts[c].(repoId := At(ids, h.conflicts[c].repoId)))
    && NamedRowsFollow(t.repos.Keys, h.bookmarks, k.bookmarks, ids)
    && NamedRowsFollow(t.repos.Keys, h.anchors, k.anchors, ids)
    && ReviewRowsFollow(t.reviews, u.reviews, ids) && CiRowsFollow(t.ci, u.ci, ids)
  }

  ghost predicate ReviewRowsFollow(v: Reviews, w: Reviews, ids: map<string, string>) {
    && w.mrs.Keys == v.mrs.Keys && w.reviews == v.reviews && w.comments == v.comments
    && forall m :: m in v.mrs ==> w.mrs[m] == v.mrs[m].(repoId := At(ids, v.mrs[m].repoId))
  }

  ghost predicate CiRowsFollow(c: Ci, d: Ci, ids: map<string, string>) {
    && d.workflows.Keys == c.workflows.Keys && d.runs.Keys == c.runs.Keys && d.jobs == c.jobs
    && (forall w :: w in c.workflows ==> d.workflows[w] == c.workflows[w].(repoId := At(ids, c.workflows[w].repoId)))
    && (forall x :: x in c.runs ==> d.runs[x] == c.runs[x].(repoId := At(ids, c.runs[x].repoId)))
  }

  lemma AllNamedFollow<T(!new)>(live: set<string>, rows: map<(string, string), T>, ids: map<string, string>)
    requires Injective(ids, live) && forall b :: b in rows ==> b.0 in live
    ensures NamedRowsFollow(live, rows, MovedNamed(live, rows, ids), ids)
  {
    forall r, name | r in live
      ensures (At(ids, r), name) in MovedNamed(live, rows, ids) <==> (r, name) in rows
      ensures (r, name) in rows ==> MovedNamed(live, rows, ids)[(At(ids, r), name)] == rows[(r, name)]
    {
      NamedFollow(live, rows, ids, r, name);
    }
  }

  lemma HistoryRowsFollow(live: set<string>, h: History, ids: map<string, string>)
    requires HistoryKeys(live, h) && Injective(ids, live)
    ensures var k := MovedHistory(live, h, ids);
      && k.changes.Keys == h.changes.Keys && k.conflicts.Keys == h.conflicts.Keys && k.parents == h.parents
      && (forall c :: c in h.changes ==> k.changes[c] == h.changes[c].(repoId := At(ids, h.changes[c].repoId)))
      && (forall c :: c in h.conflicts ==> k.conflicts[c] == h.conflicts[c].(repoId := At(ids, h.conflicts[c].repoId)))
      && NamedRowsFollow(live, h.bookmarks, k.bookmarks, ids) && NamedRowsFollow(live, h.anchors, k.anchors, ids)
  {
    AllNamedFollow(live, h.bookmarks, ids);
    AllNamedFollow(live, h.anchors, ids);
  }

  lemma MovedFollow(t: Tables, rows: map<string, Repo>, ids: map<string, string>)
    requires Keys(t) && rows.Keys == t.repos.Keys && Injective(ids, t.repos.Keys)
    ensures RowsFollow(t, Moved(t, rows, ids), ids)
  {
    HistoryRowsFollow(t.repos.Keys, t.history, ids);
    assert ReviewRowsFollow(t.reviews, MovedReviews(t.reviews, ids), ids);
    assert CiRowsFollow(t.ci, MovedCi(t.ci, ids), ids);
  }

  /** The rows of every table follow their repository to its new id, and are
      otherwise as they were. */
  lemma DependentsFollow(t: Tables, was: string, target: string)
    requires Keys(t) && !Clash(OrgIds(t, was, target), t.repos.Keys)
    ensures RowsFollow(t, OrgRenamed(t, was, target), OrgIds(t, was, target))
  {
    NoClashInjective(OrgIds(t, was, target), t.repos.Keys);
    MovedFollow(t, OrgRows(t, was, target), OrgIds(t, was, target));
  }

  lemma RepoDependentsFollow(t: Tables, was: string, target: string)
    requires Keys(t) && was in t.repos && target !in t.repos
    ensures RowsFollow(t, RepoRenamed(t, was, target), map[was := target])
  {
    OneIdInjective(t.repos.Keys, was, target);
    MovedFollow(t, RenamedRows(t, was, target), map[was := target]);
  }

  /** So a repository has under its new id exactly the rows it had under the old. */
  lemma SameRows(t: Tables, was: string, target: string, r: string, name: string)
    requires Keys(t) && !Clash(OrgIds(t, was, target), t.repos.Keys) && r in t.repos
    ensures var u, n := OrgRenamed(t, was, target), At(OrgIds(t, was, target), r);
      && ChangesOf(u.history, n) == ChangesOf(t.history, r)
      && ((n, name) in u.history.bookmarks <==> (r, name) in t.history.bookmarks)
      && ((r, name) in t.history.bookmarks ==> u.history.bookmarks[(n, name)] == t.history.bookmarks[(r, name)])
      && ((n, name) in u.history.anchors <==> (r, name) in t.history.anchors)
      && ((r, name) in t.history.anchors ==> u.history.anchors[(n, name)] == t.history.anchors[(r, name)])
      && MrsOf(u.reviews, n) == MrsOf(t.reviews, r)
      && WorkflowsOf(u.ci, n) == WorkflowsOf(t.ci, r)
      && RunsOf(u.ci, n) == RunsOf(t.ci, r)
  {
    var ids, live := OrgIds(t, was, target), t.repos.Keys;
    NoClashInjective(ids, live);
    HistoryFollows(live, t.history, ids, r);
    NamedFollow(live, t.history.bookmarks, ids, r, name);
    NamedFollow(live, t.history.anchors, ids, r, name);
    MrsFollow(live, t.reviews, ids, r);
    WorkflowsFollow(live, t.ci, ids, r);
    RunsFollow(live, t.ci, ids, r);
  }

  lemma {:induction false} MovedCount(live: set<string>, ids: map<string, string>)
    requires Injective(ids, live)
    ensures |MovedSet(live, ids)| == |live|
  {
    if live != {} {
      var r :| r in live;
      var rest := live - {r};
      MovedCount(rest, ids);
      assert MovedSet(live, ids) == MovedSet(rest, ids) + {At(ids, r)};
      assert At(ids, r) !in MovedSet(rest, ids);
    }
  }

  // ---- renaming back ----------------------------------------------------------

  lemma OrgIdBack(t: Tables, u: Tables, was: string, target: string, r: string)
    requires RepoKeys(t) && Namespaced(t) && Namespaced(u) && target !in t.orgs && Ascii(was) && Ascii(target)
    requires r in t.repos && At(OrgIds(t, was, target), r) in u.repos
    requires u.repos[At(OrgIds(t, was, target), r)] == OrgRows(t, was, target)[r]
    ensures At(OrgIds(u, target, was), At(OrgIds(t, was, target), r)) == r
  {
    AsciiLen(target);
    if t.repos[r].orgId == was {
      NewId(u, target, was, At(OrgIds(t, was, target), r));
      assert r == FullName(was, t.repos[r].name);
    }
  }

  lemma OrgIdsBack(t: Tables, u: Tables, was: string, target: string)
    requires RepoKeys(t) && Namespaced(t) && Namespaced(u) && target !in t.orgs
    requires Ascii(was) && Ascii(target) && Injective(OrgIds(t, was, target), t.repos.Keys)
    requires u.repos == MovedRepos(OrgRows(t, was, target), OrgIds(t, was, target))
    ensures Undoes(OrgIds(t, was, target), OrgIds(u, target, was), t.repos.Keys)
  {
    forall r | r in t.repos
      ensures At(OrgIds(u, target, was), At(OrgIds(t, was, target), r)) == r
    {
      OrgIdBack(t, u, was, target, r);
    }
  }

  lemma OrgRowBack(t: Tables, u: Tables, was: string, target: string, s: string)
    requires RepoKeys(t) && target !in t.orgs && s in t.repos && At(OrgIds(t, was, target), s) in u.repos
    requires u.repos[At(OrgIds(t, was, target), s)] == OrgRows(t, was, target)[s]
    ensures OrgRows(u, target, was)[At(OrgIds(t, was, target), s)] == t.repos[s]
  {
  }

  lemma OrgRowsBack(t: Tables, u: Tables, was: string, target: string)
    requires RepoKeys(t) && target !in t.orgs && Injective(OrgIds(t, was, target), t.repos.Keys)
    requires u.repos == MovedRepos(OrgRows(t, was, target), OrgIds(t, was, target))
    ensures OrgRows(u, target, was) == MovedRepos(t.repos, OrgIds(t, was, target))
  {
    var ids := OrgIds(t, was, target);
    var b, m := OrgRows(u, target, was), MovedRepos(t.repos, ids);
    forall r | r in m
      ensures r in b && b[r] == m[r]
    {
      var s :| s in t.repos && At(ids, s) == r;
      OrgRowBack(t, u, was, target, s);
    }
  }

  lemma OrgsBack(orgs: map<string, string>, was: string, target: string)
    requires was in orgs && target !in orgs
    ensures ((orgs - {was})[target := target] - {target})[was := was] == orgs[was := was]
    ensures orgs[was := was] == orgs <==> orgs[was] == was
  {
  }

  lemma RenamedCanReturn(t: Tables, was: string, target: string)
    requires Keys(t) && Namespaced(t) && was in t.orgs && target !in t.orgs && SlashFree(was) && SlashFree(target)
    requires Ascii(was) && Ascii(target) && !Clash(OrgIds(t, was, target), t.repos.Keys)
    ensures var u := OrgRenamed(t, was, target);
      Keys(u) && Namespaced(u) && was !in u.orgs && !Clash(OrgIds(u, target, was), u.repos.Keys)
  {
    OrgRenameKeeps(t, was, target);
    OrgRenameNamespaced(t, was, target);
    NeverClashes(OrgRenamed(t, was, target), target, was);
  }

  lemma OrgTablesBack(t: Tables, u: Tables, was: string, target: string)
    requires Keys(t) && Namespaced(t) && target !in t.orgs && !Clash(OrgIds(t, was, target), t.repos.Keys)
    requires Keys(u) && Namespaced(u) && !Clash(OrgIds(u, target, was), u.repos.Keys)
    requires Ascii(was) && Ascii(target) && u == OrgRenamed(t, was, target)
    ensures OrgRenamed(u, target, was) == t.(orgs := ((t.orgs - {was})[target := target] - {target})[was := was])
  {
    var ids := OrgIds(t, was, target);
    NoClashInjective(ids, t.repos.Keys);
    OrgIdsBack(t, u, was, target);
    OrgRowsBack(t, u, was, target);
    MovedBack(t, u, OrgRows(t, was, target), ids, OrgIds(u, target, was));
  }

  /** Renaming back restores every table, but sets the organisation's display
      name to its id: the state is the old one exactly if it was that before. */
  lemma OrgRenameBack(t: Tables, was: string, target: string)
    requires Keys(t) && Namespaced(t) && was in t.orgs && target !in t.orgs && SlashFree(was) && SlashFree(target)
    requires Ascii(was) && Ascii(target) && !Clash(OrgIds(t, was, target), t.repos.Keys)
    ensures var u := OrgRenamed(t, was, target);
      && Keys(u) && !Clash(OrgIds(u, target, was), u.repos.Keys)
      && OrgRenamed(u, target, was) == t.(orgs := t.orgs[was := was])
      && (OrgRenamed(u, target, was) == t <==> t.orgs[was] == was)
  {
    RenamedCanReturn(t, was, target);
    OrgTablesBack(t, OrgRenamed(t, was, target), was, target);
    OrgsBack(t.orgs, was, target);
  }

  /** `u` is `t` moved, but for the organisations. */
  predicate IsMoved(t: Tables, u: Tables, rows: map<string, Repo>, ids: map<string, string>)
    requires Keys(t) && rows.Keys == t.repos.Keys && Injective(ids, t.repos.Keys)
  {
    && u.repos == MovedRepos(rows, ids)
    && u.history == MovedHistory(t.repos.Keys, t.history, ids)
    && u.reviews == MovedReviews(t.reviews, ids)
    && u.ci == MovedCi(t.ci, ids)
  }

  lemma MovedBack(t: Tables, u: Tables, rows: map<string, Repo>, ids: map<string, string>, back: map<string, string>)
    requires Keys(t) && Keys(u) && rows.Keys == t.repos.Keys && Undoes(ids, back, t.repos.Keys)
    requires Injective(ids, t.repos.Keys) && IsMoved(t, u, rows, ids)
    ensures Injective(ids, t.repos.Keys) && Injective(back, u.repos.Keys)
    ensures IsMoved(u, t, MovedRepos(t.repos, ids), back)
  {
    var live := t.repos.Keys;
    BackInjective(ids, back, live);
    assert u.repos.Keys == MovedSet(live, ids);
    var once := MovedRepos(t.repos, ids);
    ReposBack(t.repos, once, MovedRepos(once, back), ids, back);
    MovedHistoryBack(live, t.history, ids, back);
    MovedReviewsBack(live, t.reviews, ids, back);
    MovedCiBack(live, t.ci, ids, back);
  }

  lemma OneIdBack(live: set<string>, was: string, target: string)
    requires was in live && target !in live
    ensures Undoes(map[was := target], map[target := was], live)
    ensures was !in MovedSet(live, map[was := target]) && target in MovedSet(live, map[was := target])
  {
    assert At(map[was := target], was) == target;
  }

  lemma RowsBack(t: Tables, u: Tables, was: string, target: string)
    requires Namespaced(t) && was in t.repos && target !in t.repos && target in u.repos
    requires Injective(map[was := target], t.repos.Keys)
    requires u.repos == MovedRepos(RenamedRows(t, was, target), map[was := target])
    ensures RenamedRows(u, target, was) == MovedRepos(t.repos, map[was := target])
  {
    var ids := map[was := target];
    var b, m := RenamedRows(u, target, was), MovedRepos(t.repos, ids);
    LastSegmentOf(t.repos[was].orgId, t.repos[was].name);
    assert At(ids, was) == target;
    assert b.Keys == m.Keys;
    forall r | r in t.repos
      ensures b[At(ids, r)] == m[At(ids, r)]
    {
      assert u.repos[At(ids, r)] == RenamedRows(t, was, target)[r];
    }
  }

  lemma RepoCanReturn(t: Tables, was: string, target: string)
    requires Keys(t) && was in t.repos && target !in t.repos
    ensures var u := RepoRenamed(t, was, target); Keys(u) && target in u.repos && was !in u.repos
  {
    RepoRenameKeeps(t, was, target);
    OneIdInjective(t.repos.Keys, was, target);
    OneIdBack(t.repos.Keys, was, target);
  }

  /** The handler's rollback: renaming a repository back undoes the rename. */
  lemma RepoRenameBack(t: Tables, was: string, target: string)
    requires Keys(t) && Namespaced(t) && was in t.repos && target !in t.repos
    ensures var u := RepoRenamed(t, was, target);
      && Keys(u) && target in u.repos && was !in u.repos
      && RepoRenamed(u, target, was) == t
  {
    RepoCanReturn(t, was, target);
    RepoTablesBack(t, RepoRenamed(t, was, target), was, target);
  }

  lemma RepoMovedBack(t: Tables, was: string, target: string)
    requires Keys(t) && was in t.repos && target !in t.repos
    ensures var u, ids, back := RepoRenamed(t, was, target), map[was := target], map[target := was];
      && Keys(u) && Injective(ids, t.repos.Keys) && Injective(back, u.repos.Keys)
      && MovedRepos(t.repos, ids).Keys == u.repos.Keys && IsMoved(u, t, MovedRepos(t.repos, ids), back)
  {
    var u := RepoRenamed(t, was, target);
    RepoRenameKeeps(t, was, target);
    OneIdInjective(t.repos.Keys, was, target);
    OneIdBack(t.repos.Keys, was, target);
    MovedBack(t, u, RenamedRows(t, was, target), map[was := target], map[target := was]);
  }

  lemma RepoTablesBack(t: Tables, u: Tables, was: string, target: string)
    requires Keys(t) && Namespaced(t) && was in t.repos && target !in t.repos
    requires u == RepoRenamed(t, was, target) && Keys(u) && target in u.repos && was !in u.repos
    ensures RepoRenamed(u, target, was) == t
  {
    RepoMovedBack(t, was, target);
    RowsBack(t, u, was, target);
  }
}
