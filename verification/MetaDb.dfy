/** The metadata database as a state machine: its writers, and what every run
    of them keeps. */
module MetaDb {
  import opened Common
  import opened MetaTables
  import opened RepoRemoval
  import opened Renames
  import opened OrgRename
  import opened MrNumbers
  import opened DeleteStatements

  datatype Outcome = Done | NotFound | Taken | Failed

  datatype Op =
    | Write(s: Statement)
    | NewMr(id: int, mr: Mr)
    | RepoRename(was: string, target: string)
    | NewOrgName(was: string, target: string)
    | RepoDelete(repoId: string)
    | OrgDelete(org: string)

  datatype Turn = Turn(tables: Tables, outcome: Outcome)

  function Written(t: Tables, s: Statement): Turn {
    var u := Effect(t, s);
    if u.Some? then Turn(u.value, Done) else Turn(t, Failed)
  }

  /** The next number is one more than the number of merge requests. */
  function NumberedRow(v: Reviews, row: Mr): Mr {
    row.(number := |MrsOf(v, row.repoId)| + 1)
  }

  function RepoRenameTurn(t: Tables, was: string, target: string): Turn
    requires Keys(t)
  {
    if was !in t.repos then Turn(t, NotFound)
    else if target in t.repos then Turn(t, Taken)
    else Turn(RepoRenamed(t, was, target), Done)
  }

  function OrgRenameTurn(t: Tables, was: string, target: string): Turn
    requires Keys(t)
  {
    if target in t.orgs then Turn(t, Taken)
    else if was !in t.orgs then Turn(t, NotFound)
    else if Clash(OrgIds(t, was, target), t.repos.Keys) then Turn(t, Failed)
    else Turn(OrgRenamed(t, was, target), Done)
  }

  function RepoDeleteTurn(t: Tables, r: string): Turn {
    if r !in t.repos then Turn(t, Done)
    else if Held(t.history, r) then Turn(Cleared(t, r), Failed)
    else Turn(Purged(t, r), Done)
  }

  predicate HasRepos(t: Tables, o: string) {
    exists r :: r in t.repos && t.repos[r].orgId == o
  }

  function OrgDeleteTurn(t: Tables, o: string): Turn {
    if o !in t.orgs then Turn(t, NotFound)
    else if HasRepos(t, o) then Turn(t, Taken)
    else Turn(t.(orgs := t.orgs - {o}), Done)
  }

  function Step(t: Tables, op: Op): Turn
    requires Keys(t)
  {
    match op
    case Write(s) => Written(t, s)
    case NewMr(id, row) => Written(t, OnReviews(InsertMr(id, NumberedRow(t.reviews, row))))
    case RepoRename(was, target) => RepoRenameTurn(t, was, target)
    case NewOrgName(was, target) => OrgRenameTurn(t, was, target)
    case RepoDelete(r) => RepoDeleteTurn(t, r)
    case OrgDelete(o) => OrgDeleteTurn(t, o)
  }

  // ---- every operation keeps every foreign key ------------------------------

  lemma ClearedKeeps(t: Tables, r: string)
    requires Keys(t)
    ensures Keys(Cleared(t, r))
  {
    var live, h := t.repos.Keys, t.history;
    var h1 := DropParents(h, ChangesOf(h, r));
    DropsKeepHistory(live, h, r, ChangesOf(h, r));
    DropsKeepHistory(live, h1, r, {});
    DropsKeepHistory(live, DropBookmarks(h1, r), r, {});
    DropsKeepHistory(live, DropConflicts(DropBookmarks(h1, r), r), r, {});
    DropRunsKeeps(live, t.ci, RunsOf(t.ci, r));
    DropWorkflowsKeeps(live, DropRuns(t.ci, RunsOf(t.ci, r)), r);
  }

  lemma PurgedKeeps(t: Tables, r: string)
    requires Keys(t) && !Held(t.history, r)
    ensures Keys(Purged(t, r))
  {
    var live, u := t.repos.Keys, Purged(t, r).(repos := t.repos);
    ClearedKeeps(t, r);
    var k := ClearedHistory(t.history, r);
    ChangesGo(t.history, r);
    DropsKeepHistory(live, k, r, {});
    ClearedShape(t.history, r);
    assert ChangesOf(k, r) == ChangesOf(t.history, r);
    DropMrsKeeps(live, t.reviews, MrsOf(t.reviews, r));
    RepoGoes(t, r);
    DropRepoKeeps(u, r);
  }

  lemma WrittenKeeps(t: Tables, s: Statement)
    requires Keys(t)
    ensures Keys(Written(t, s).tables)
  {
    if Effect(t, s).Some? { EffectKeepsKeys(t, s); }
  }

  lemma RenameTurnsKeep(t: Tables, was: string, target: string)
    requires Keys(t)
    ensures Keys(RepoRenameTurn(t, was, target).tables) && Keys(OrgRenameTurn(t, was, target).tables)
  {
    if was in t.repos && target !in t.repos { RepoRenameKeeps(t, was, target); }
    if target !in t.orgs && was in t.orgs && !Clash(OrgIds(t, was, target), t.repos.Keys) { OrgRenameKeeps(t, was, target); }
  }

  lemma DeleteTurnsKeep(t: Tables, r: string)
    requires Keys(t)
    ensures Keys(RepoDeleteTurn(t, r).tables) && Keys(OrgDeleteTurn(t, r).tables)
  {
    if r in t.repos { if Held(t.history, r) { ClearedKeeps(t, r); } else { PurgedKeeps(t, r); } }
  }

  lemma StepKeepsKeys(t: Tables, op: Op)
    requires Keys(t)
    ensures Keys(Step(t, op).tables)
  {
    match op
    case Write(s) => WrittenKeeps(t, s);
    case NewMr(id, row) => WrittenKeeps(t, OnReviews(InsertMr(id, NumberedRow(t.reviews, row))));
    case RepoRename(was, target) => RenameTurnsKeep(t, was, target);
    case NewOrgName(was, target) => RenameTurnsKeep(t, was, target);
    case RepoDelete(r) => DeleteTurnsKeep(t, r);
    case OrgDelete(o) => DeleteTurnsKeep(t, o);
  }

  // ---- numbering, workflow paths and names ----------------------------------

  predicate RawInsert(op: Op) {
    op.Write? && op.s.OnReviews? && op.s.v.InsertMr?
  }

  lemma StepKeepsNumbers(t: Tables, op: Op)
    requires Keys(t) && Numbered(t.reviews) && !RawInsert(op)
    ensures Numbered(Step(t, op).tables.reviews)
  {
    var live, v := t.repos.Keys, t.reviews;
    match op
    case Write(s) =>
      if s.OnReviews? && ReviewEffect(live, v, s.v).Some? { OtherWritesNumbered(live, v, s.v); }
    case NewMr(id, row) =>
      var next := NumberedRow(v, row);
      if ReviewEffect(live, v, InsertMr(id, next)).Some? { InsertNumbered(live, v, id, next); }
    case RepoRename(was, target) =>
      if was in t.repos && target !in t.repos {
        OneIdInjective(live, was, target);
        MoveNumbered(live, v, map[was := target]);
      }
    case NewOrgName(was, target) =>
      var ids := OrgIds(t, was, target);
      if target !in t.orgs && was in t.orgs && !Clash(ids, live) {
        NoClashInjective(ids, live);
        MoveNumbered(live, v, ids);
      }
    case RepoDelete(r) => DropNumbered(v, r);
    case OrgDelete(o) =>
  }

  lemma DropPaths(c: Ci, r: string)
    requires UniquePaths(c)
    ensures UniquePaths(ClearedCi(c, r))
  {
    var d := ClearedCi(c, r);
    assert forall w :: w in d.workflows ==> w in c.workflows && d.workflows[w] == c.workflows[w];
  }

  lemma MovePaths(live: set<string>, c: Ci, ids: map<string, string>)
    requires UniquePaths(c) && CiKeys(live, c) && Injective(ids, live)
    ensures UniquePaths(MovedCi(c, ids))
  {
    var d := MovedCi(c, ids);
    forall v, w | v in d.workflows && w in d.workflows && d.workflows[v].repoId == d.workflows[w].repoId && d.workflows[v].path == d.workflows[w].path
      ensures v == w
    {
      assert c.workflows[v].repoId == c.workflows[w].repoId;
    }
  }

  lemma StepKeepsPaths(t: Tables, op: Op)
    requires Keys(t) && UniquePaths(t.ci)
    ensures UniquePaths(Step(t, op).tables.ci)
  {
    var live := t.repos.Keys;
    match op
    case Write(s) =>
      if s.OnCi? && CiEffect(live, t.ci, s.c).Some? { UniquePathsKept(live, t.ci, s.c); }
    case NewMr(_, _) =>
    case RepoRename(was, target) =>
      if was in t.repos && target !in t.repos {
        OneIdInjective(live, was, target);
        MovePaths(live, t.ci, map[was := target]);
      }
    case NewOrgName(was, target) =>
      var ids := OrgIds(t, was, target);
      if target !in t.orgs && was in t.orgs && !Clash(ids, live) {
        NoClashInjective(ids, live);
        MovePaths(live, t.ci, ids);
      }
    case RepoDelete(r) => DropPaths(t.ci, r);
    case OrgDelete(o) =>
  }

  /** How the callers use the writers that touch names: a repository id is the
      checked organisation and repository names, joined. */
  ghost predicate Wellformed(op: Op) {
    match op
    case Write(s) => !RawInsert(op) && (s.OnNames? && s.n.UpsertRepo? ==> WellNamed(s.n.id, s.n.repo))
    case RepoRename(was, target) =>
      exists o, m, n :: SlashFree(o) && SlashFree(m) && SlashFree(n) && was == FullName(o, m) && target == FullName(o, n)
    case NewOrgName(was, target) => Ascii(was) && SlashFree(target)
    case _ => true
  }

  ghost predicate AllWellformed(ops: seq<Op>) {
    forall i :: 0 <= i < |ops| ==> Wellformed(ops[i])
  }

  lemma UpsertKeepsNames(t: Tables, r: string, row: Repo)
    requires Namespaced(t) && WellNamed(r, row) && NameEffect(t, UpsertRepo(r, row)).Some?
    ensures Namespaced(NameEffect(t, UpsertRepo(r, row)).value)
  {
    if r in t.repos {
      SplitUnique(row.orgId, row.name, t.repos[r].orgId, t.repos[r].name);
    }
  }

  lemma StepKeepsNames(t: Tables, op: Op)
    requires Keys(t) && Namespaced(t) && Wellformed(op)
    ensures Namespaced(Step(t, op).tables)
  {
    match op
    case Write(s) =>
      if s.OnNames? && s.n.UpsertRepo? && NameEffect(t, s.n).Some? { UpsertKeepsNames(t, s.n.id, s.n.repo); }
    case NewMr(_, _) =>
    case RepoRename(was, target) =>
      if was in t.repos && target !in t.repos {
        var o, m, n :| SlashFree(o) && SlashFree(m) && SlashFree(n) && was == FullName(o, m) && target == FullName(o, n);
        SplitUnique(o, m, t.repos[was].orgId, t.repos[was].name);
        RepoRenameNamespaced(t, was, target);
      }
    case NewOrgName(was, target) =>
      if target !in t.orgs && was in t.orgs && !Clash(OrgIds(t, was, target), t.repos.Keys) { OrgRenameNamespaced(t, was, target); }
    case RepoDelete(r) =>
    case OrgDelete(o) =>
  }

  // ---- runs -------------------------------------------------------------------

  ghost predicate Good(t: Tables) {
    Keys(t) && Numbered(t.reviews) && UniquePaths(t.ci) && Namespaced(t)
  }

  lemma StepKeepsGood(t: Tables, op: Op)
    requires Good(t) && Wellformed(op)
    ensures Good(Step(t, op).tables)
  {
    StepKeepsKeys(t, op);
    StepKeepsNumbers(t, op);
    StepKeepsPaths(t, op);
    StepKeepsNames(t, op);
  }

  /** The tables after the operations, in order. Whatever they are, every
      foreign and unique key, the numbering and the naming hold at the end. */
  ghost function Run(t: Tables, ops: seq<Op>): (u: Tables)
    requires Good(t) && AllWellformed(ops)
    ensures Good(u)
    decreases |ops|
  {
    if ops == [] then t
    else
      StepKeepsGood(t, ops[0]);
      Run(Step(t, ops[0]).tables, ops[1..])
  }

  /** After any run, the merge requests of every repository are numbered 1 to k,
      each number once. */
  lemma RunNumbers(ops: seq<Op>, r: string, n: int)
    requires AllWellformed(ops)
    ensures var v := Run(EMPTY, ops).reviews;
      && (NumberTaken(v, r, n) <==> 1 <= n <= |MrsOf(v, r)|)
      && UniqueNumbers(v)
  {
    NumbersAreExactly(Run(EMPTY, ops).reviews, r, n);
  }

  /** After any run, renaming an organisation onto a free name succeeds. */
  lemma RunRename(ops: seq<Op>, was: string, target: string)
    requires AllWellformed(ops)
    requires Ascii(was) && SlashFree(target)
    ensures var t := Run(EMPTY, ops);
      OrgRenameTurn(t, was, target).outcome ==
        if target in t.orgs then Taken else if was !in t.orgs then NotFound else Done
  {
    var t := Run(EMPTY, ops);
    if target !in t.orgs { NeverClashes(t, was, target); }
  }

  /** Two repositories with one change in common: the conflict is filed under
      the second, the change belongs to the first. */
  function SharedChange(): Tables {
    var x, y := FullName("o", "x"), FullName("o", "y");
    SharedWith(History(map["c" := Change(x, "", "", None)], {}, map[(x, "main") := false], map[],
                       map["k" := Conflict(y, "c", "", "")]))
  }

  lemma SharedChangeKeys()
    ensures Keys(SharedChange())
  {
    var x, y := FullName("o", "x"), FullName("o", "y");
    assert x[2] != y[2];
    assert HistoryKeys({x, y}, SharedChange().history);
    assert SharedChange().repos.Keys == {x, y};
  }

  lemma SharedChangeGood()
    ensures Good(SharedChange())
  {
    SharedChangeKeys();
    assert WellNamed(FullName("o", "x"), Repo("o", "x", "")) && WellNamed(FullName("o", "y"), Repo("o", "y", ""));
  }

  /** A removal can fail from a state the writers reach, and then half of it has
      happened. */
  lemma SharedChangeBlocks()
    ensures var t, r := SharedChange(), FullName("o", "x");
      && Reachable(t) && Good(t) && r in t.repos
      && RepoDeleteTurn(t, r).outcome == Failed
      && RepoDeleteTurn(t, r).tables != t
  {
    SharedChangeGood();
    SharedChangeReached();
    var t, x, y := SharedChange(), FullName("o", "x"), FullName("o", "y");
    assert x[2] != y[2];
    assert "k" in t.history.conflicts && "c" in ChangesOf(t.history, x);
    assert Held(t.history, x);
    assert (x, "main") !in Cleared(t, x).history.bookmarks;
  }

  lemma EmptyGood()
    ensures Good(EMPTY)
  {
  }

  ghost predicate ReachedBy(t: Tables, ops: seq<Op>) {
    EmptyGood();
    AllWellformed(ops) && Run(EMPTY, ops) == t
  }

  /** Some sequence of operations leads there. */
  ghost predicate Reachable(t: Tables) {
    exists ops :: ReachedBy(t, ops)
  }

  lemma {:induction false} RunOneMore(t: Tables, ops: seq<Op>, op: Op)
    requires Good(t) && AllWellformed(ops) && Wellformed(op)
    ensures AllWellformed(ops + [op]) && Run(t, ops + [op]) == Step(Run(t, ops), op).tables
    decreases |ops|
  {
    if ops == [] {
      assert ops + [op] == [op];
      RunOne(t, op);
    } else {
      StepKeepsGood(t, ops[0]);
      RunOneMore(Step(t, ops[0]).tables, ops[1..], op);
      assert (ops + [op])[1..] == ops[1..] + [op];
    }
  }

  lemma RunOne(t: Tables, op: Op)
    requires Good(t) && Wellformed(op)
    ensures AllWellformed([op]) && Run(t, [op]) == Step(t, op).tables
  {
    StepKeepsGood(t, op);
    assert [op][1..] == [];
  }

  lemma ReachableStep(t: Tables, op: Op, u: Tables)
    requires Reachable(t) && Wellformed(op) && Keys(t) && Step(t, op).tables == u
    ensures Reachable(u) && Keys(u)
  {
    ReachedNext(t, op);
    StepKeepsKeys(t, op);
  }

  lemma ReachedNext(t: Tables, op: Op)
    requires Reachable(t) && Wellformed(op)
    ensures Reachable(Step(t, op).tables)
  {
    EmptyGood();
    var ops :| ReachedBy(t, ops);
    RunOneMore(EMPTY, ops, op);
    assert ReachedBy(Step(t, op).tables, ops + [op]);
  }

  /** The repositories of the shared change, with the history `h`. */
  function SharedWith(h: History): Tables {
    var x, y := FullName("o", "x"), FullName("o", "y");
    EMPTY.(orgs := map["o" := "o"], repos := map[x := Repo("o", "x", ""), y := Repo("o", "y", "")], history := h)
  }

  lemma SharedNamesReached()
    ensures Reachable(SharedWith(EMPTY.history)) && Keys(SharedWith(EMPTY.history))
  {
    var x, y, rx, ry := FullName("o", "x"), FullName("o", "y"), Repo("o", "x", ""), Repo("o", "y", "");
    var t1 := EMPTY.(orgs := map["o" := "o"]);
    assert Reachable(t1) && Keys(t1) by {
      assert ReachedBy(EMPTY, []);
      ReachableStep(EMPTY, Write(OnNames(CreateOrg("o"))), t1);
    }
    RepoReached(t1, x, rx);
    assert x[2] != y[2];
    RepoReached(t1.(repos := t1.repos[x := rx]), y, ry);
    assert SharedWith(EMPTY.history).repos == map[x := rx][y := ry];
  }

  lemma RepoReached(t: Tables, r: string, row: Repo)
    requires Reachable(t) && Keys(t) && WellNamed(r, row) && row.orgId in t.orgs && r !in t.repos
    ensures var u := t.(repos := t.repos[r := row]); Reachable(u) && Keys(u)
  {
    ReachableStep(t, Write(OnNames(UpsertRepo(r, row))), t.(repos := t.repos[r := row]));
  }

  lemma HistoryStep(h: History, w: HistoryWrite, k: History)
    requires Reachable(SharedWith(h)) && Keys(SharedWith(h))
    requires HistoryEffect(SharedWith(h).repos.Keys, h, w) == Some(k)
    ensures Reachable(SharedWith(k)) && Keys(SharedWith(k))
  {
    ReachableStep(SharedWith(h), Write(OnHistory(w)), SharedWith(k));
  }

  /** The writers reach that state: two repositories of an organisation, a change
      and a bookmark of the first, then a conflict of the second. */
  lemma SharedChangeReached()
    ensures Reachable(SharedChange())
  {
    var x, y, row := FullName("o", "x"), FullName("o", "y"), Change(FullName("o", "x"), "", "", None);
    var h1 := EMPTY.history.(changes := map["c" := row]);
    var h2 := h1.(bookmarks := map[(x, "main") := false]);
    var h3 := h2.(conflicts := map["k" := Conflict(y, "c", "", "")]);
    SharedNamesReached();
    HistoryStep(EMPTY.history, UpsertChange("c", row), h1);
    HistoryStep(h1, UpsertBookmark(x, "main", false), h2);
    HistoryStep(h2, UpsertConflict("k", Conflict(y, "c", "", "")), h3);
  }

  // ---- what a removal removes after a run -----------------------------------------

  /** Every run is filed under its workflow's repository. */
  predicate Owned(c: Ci) {
    forall x :: x in c.runs && c.runs[x].workflowId in c.workflows ==> c.workflows[c.runs[x].workflowId].repoId == c.runs[x].repoId
  }

  /** The ownership check of a dispatch: the workflow is the repository's own. */
  predicate Checked(c: Ci, op: Op) {
    op.Write? && op.s.OnCi? && op.s.c.CreateRun? && op.s.c.run.workflowId in c.workflows ==>
      c.workflows[op.s.c.run.workflowId].repoId == op.s.c.run.repoId
  }

  lemma WriteKeepsOwned(live: set<string>, c: Ci, s: CiWrite)
    requires CiKeys(live, c) && Owned(c) && Checked(c, Write(OnCi(s))) && CiEffect(live, c, s).Some?
    ensures Owned(CiEffect(live, c, s).value)
  {
    var d := CiEffect(live, c, s).value;
    forall x | x in d.runs && d.runs[x].workflowId in d.workflows
      ensures d.workflows[d.runs[x].workflowId].repoId == d.runs[x].repoId
    {
      if x in c.runs {
        assert d.runs[x].workflowId == c.runs[x].workflowId && d.runs[x].repoId == c.runs[x].repoId;
        assert c.runs[x].workflowId in c.workflows;
      }
    }
  }

  lemma DropKeepsOwned(live: set<string>, c: Ci, r: string)
    requires CiKeys(live, c) && Owned(c)
    ensures Owned(ClearedCi(c, r))
  {
    ClearedCiShape(live, c, r);
    var d := ClearedCi(c, r);
    assert forall w :: w in d.workflows ==> d.workflows[w] == c.workflows[w];
    assert forall x :: x in d.runs ==> d.runs[x] == c.runs[x];
  }

  lemma MoveKeepsOwned(live: set<string>, c: Ci, ids: map<string, string>)
    requires CiKeys(live, c) && Owned(c)
    ensures Owned(MovedCi(c, ids))
  {
  }

  lemma StepKeepsOwned(t: Tables, op: Op)
    requires Keys(t) && Owned(t.ci) && Checked(t.ci, op)
    ensures Owned(Step(t, op).tables.ci)
  {
    var live := t.repos.Keys;
    match op
    case Write(s) =>
      if s.OnCi? && CiEffect(live, t.ci, s.c).Some? { WriteKeepsOwned(live, t.ci, s.c); }
    case NewMr(_, _) =>
    case RepoRename(was, target) => MoveKeepsOwned(live, t.ci, map[was := target]);
    case NewOrgName(was, target) => MoveKeepsOwned(live, t.ci, OrgIds(t, was, target));
    case RepoDelete(r) => DropKeepsOwned(live, t.ci, r);
    case OrgDelete(_) =>
  }

  /** No writer adds a parent edge. */
  lemma StepAddsNoEdges(t: Tables, op: Op)
    requires Keys(t)
    ensures Step(t, op).tables.history.parents <= t.history.parents
  {
    match op
    case Write(s) => WrittenAddsNoEdges(t, s);
    case NewMr(id, row) =>
    case RepoRename(was, target) =>
    case NewOrgName(was, target) =>
    case RepoDelete(r) => ClearedShape(t.history, r);
    case OrgDelete(_) =>
  }

  lemma WrittenAddsNoEdges(t: Tables, s: Statement)
    ensures Written(t, s).tables.history.parents <= t.history.parents
  {
  }

  ghost predicate AllChecked(t: Tables, ops: seq<Op>)
    requires Good(t) && AllWellformed(ops)
    decreases |ops|
  {
    ops == [] || (Checked(t.ci, ops[0]) && (StepKeepsGood(t, ops[0]); AllChecked(Step(t, ops[0]).tables, ops[1..])))
  }

  lemma {:induction false} RunAddsNoEdges(t: Tables, ops: seq<Op>)
    requires Good(t) && AllWellformed(ops) && t.history.parents == {}
    ensures Run(t, ops).history.parents == {}
    decreases |ops|
  {
    if ops != [] {
      StepKeepsGood(t, ops[0]);
      StepAddsNoEdges(t, ops[0]);
      RunAddsNoEdges(Step(t, ops[0]).tables, ops[1..]);
    }
  }

  lemma {:induction false} RunKeepsOwned(t: Tables, ops: seq<Op>)
    requires Good(t) && AllWellformed(ops) && AllChecked(t, ops) && Owned(t.ci)
    ensures Owned(Run(t, ops).ci)
    decreases |ops|
  {
    if ops != [] {
      StepKeepsGood(t, ops[0]);
      StepKeepsOwned(t, ops[0]);
      RunKeepsOwned(Step(t, ops[0]).tables, ops[1..]);
    }
  }

  /** After any run of the writers, deleting a repository gets through unless a
      conflict filed under another repository names one of its changes, and then
      removes exactly its rows, the CI rows if and only if no other repository's
      run is filed under one of its workflows. */
  lemma RemovalAfterRun(ops: seq<Op>, r: string)
    requires AllWellformed(ops)
    ensures var t := Run(EMPTY, ops);
      var turn := RepoDeleteTurn(t, r);
      r in t.repos ==>
        && (turn.outcome == Done <==> !Held(t.history, r))
        && (turn.outcome == Done ==>
              && turn.tables.repos.Keys == t.repos.Keys - {r} && RestUntouched(t, turn.tables)
              && HistoryGone(t.history, turn.tables.history, r)
              && ReviewsGone(t.reviews, turn.tables.reviews, r)
              && (CiGone(t.ci, turn.tables.ci, r) <==> RunsInside(t.ci, r)))
  {
    var t := Run(EMPTY, ops);
    RunAddsNoEdges(EMPTY, ops);
    PurgedIsExact(t, r);
  }

  /** Where every new run's workflow is checked, no run is ever filed under
      another repository's workflow. */
  lemma CheckedRunsInside(ops: seq<Op>, r: string)
    requires AllWellformed(ops) && AllChecked(EMPTY, ops)
    ensures RunsInside(Run(EMPTY, ops).ci, r)
  {
    RunKeepsOwned(EMPTY, ops);
  }

  // ---- the database object ------------------------------------------------------

  lemma DropParentsTwice(h: History, a: set<string>, c: string)
    ensures DropParents(DropParents(h, a), {c}) == DropParents(h, a + {c})
  {
  }

  lemma DropMrsTwice(v: Reviews, a: set<int>, m: int)
    ensures DropMrs(DropMrs(v, a), {m}) == DropMrs(v, a + {m})
  {
  }

  /** The tables after the deletes that need no list. */
  function AfterMiddle(t: Tables, r: string): Tables {
    t.(history := DropAnchors(DropConflicts(DropBookmarks(t.history, r), r), r), ci := ClearedCi(t.ci, r))
  }

  function WithoutParents(t: Tables, gone: set<string>): Tables {
    t.(history := DropParents(t.history, gone))
  }

  lemma WithoutParentsNext(t: Tables, gone: set<string>, c: string)
    ensures WithoutParents(WithoutParents(t, gone), {c}) == WithoutParents(t, gone + {c})
  {
    DropParentsTwice(t.history, gone, c);
  }

  function WithoutMrs(t: Tables, gone: set<int>): Tables {
    t.(reviews := DropMrs(t.reviews, gone))
  }

  lemma WithoutMrsNext(t: Tables, gone: set<int>, m: int)
    ensures WithoutMrs(WithoutMrs(t, gone), {m}) == WithoutMrs(t, gone + {m})
  {
    DropMrsTwice(t.reviews, gone, m);
  }

  lemma NothingGone(t: Tables)
    ensures WithoutParents(t, {}) == t && WithoutMrs(t, {}) == t
  {
    assert DropParents(t.history, {}) == t.history;
    assert DropMrs(t.reviews, {}) == t.reviews;
  }

  lemma ParentsDeleted(t: Tables, changeIds: seq<string>, done: set<string>, c: string)
    requires Replay(t, ParentDeletes(changeIds)) == Some(WithoutParents(t, done)) && Lists(changeIds, done) && c !in done
    ensures ApplyDelete(WithoutParents(t, done), ParentsOf(c)) == Some(WithoutParents(t, done + {c}))
    ensures Replay(t, ParentDeletes(changeIds + [c])) == Some(WithoutParents(t, done + {c}))
    ensures Lists(changeIds + [c], done + {c})
  {
    WithoutParentsNext(t, done, c);
    ReplayOne(t, ParentDeletes(changeIds), WithoutParents(t, done), ParentsOf(c));
    ListsOne(changeIds, done, c);
    assert (changeIds + [c])[..|changeIds|] == changeIds;
  }

  lemma MrDeleted(t: Tables, mrIds: seq<int>, done: set<int>, m: int)
    requires Replay(t, MrDeletes(mrIds)) == Some(WithoutMrs(t, done)) && Lists(mrIds, done) && m !in done
    ensures ApplyDelete(WithoutMrs(t, done), OneMr(m)) == Some(WithoutMrs(t, done + {m}))
    ensures Replay(t, MrDeletes(mrIds + [m])) == Some(WithoutMrs(t, done + {m}))
    ensures Lists(mrIds + [m], done + {m})
  {
    WithoutMrsNext(t, done, m);
    ReplayOne(t, MrDeletes(mrIds), WithoutMrs(t, done), OneMr(m));
    ListsOne(mrIds, done, m);
    assert (mrIds + [m])[..|mrIds|] == mrIds;
  }

  /** The delete of the changes and what it leaves. */
  lemma WithoutChanges(t: Tables, r: string)
    ensures ApplyDelete(Cleared(t, r), ChangesIn(r)) ==
      if Held(t.history, r) then None else Some(Purged(t, r).(repos := t.repos, reviews := t.reviews))
  {
    ChangesGo(t.history, r);
    ClearedShape(t.history, r);
    assert ChangesOf(ClearedHistory(t.history, r), r) == ChangesOf(t.history, r);
  }

  class Db {
    var tables: Tables

    constructor ()
      ensures tables == EMPTY && Good(tables)
    {
      tables := EMPTY;
    }

    /** The writers made of one statement. */
    method Execute(s: Statement) returns (outcome: Outcome)
      modifies this
      ensures Turn(tables, outcome) == Written(old(tables), s)
    {
      var u := Effect(tables, s);
      if u.None? { return Failed; }
      tables := u.value;
      return Done;
    }

    /** Looks up the highest number, then inserts the next. */
    method CreateMr(id: int, row: Mr) returns (outcome: Outcome)
      requires Keys(tables) && Numbered(tables.reviews)
      modifies this
      ensures Turn(tables, outcome) == Step(old(tables), NewMr(id, row))
      ensures id !in old(tables).reviews.mrs ==> (outcome == Done <==> row.repoId in old(tables).repos)
    {
      var top := MaxNumber(tables.reviews, row.repoId);
      MaxIsCount(tables.reviews, row.repoId, top);
      if id !in tables.reviews.mrs { NextIsFree(tables.repos.Keys, tables.reviews, id, row.(number := top + 1)); }
      outcome := Execute(OnReviews(InsertMr(id, row.(number := top + 1))));
    }

    /** Renames a repository onto a free id; every row of every table follows,
        and nothing else changes. */
    method RenameRepo(was: string, target: string) returns (outcome: Outcome)
      requires Keys(tables)
      modifies this
      ensures Turn(tables, outcome) == Step(old(tables), RepoRename(was, target))
      ensures Keys(tables)
      ensures outcome == Done <==> was in old(tables).repos && target !in old(tables).repos
      ensures outcome != Done ==> tables == old(tables)
      ensures outcome == Done ==>
        && RowsFollow(old(tables), tables, map[was := target]) && tables.orgs == old(tables).orgs
        && tables.repos.Keys == old(tables).repos.Keys - {was} + {target}
        && tables.repos[target] == old(tables).repos[was].(name := LastSegment(target))
        && (forall r :: r in old(tables).repos && r != was ==> tables.repos[r] == old(tables).repos[r])
      ensures Namespaced(old(tables)) && Wellformed(RepoRename(was, target)) ==> Namespaced(tables)
    {
      StepKeepsKeys(tables, RepoRename(was, target));
      if Namespaced(tables) && Wellformed(RepoRename(was, target)) { StepKeepsNames(tables, RepoRename(was, target)); }
      if was !in tables.repos { return NotFound; }
      if target in tables.repos { return Taken; }
      RepoDependentsFollow(tables, was, target);
      RenamedRepos(tables, was, target);
      tables := RepoRenamed(tables, was, target);
      return Done;
    }

    /** Rewrites the repositories, then the organisation, in one transaction. */
    method RenameOrg(was: string, target: string) returns (outcome: Outcome)
      requires Keys(tables)
      modifies this
      ensures Turn(tables, outcome) == Step(old(tables), NewOrgName(was, target))
      ensures Keys(tables)
      ensures outcome == Taken <==> target in old(tables).orgs
      ensures outcome == NotFound <==> target !in old(tables).orgs && was !in old(tables).orgs
      ensures outcome != Done ==> tables == old(tables)
      ensures outcome == Done ==>
        && tables.orgs == (old(tables).orgs - {was})[target := target]
        && RowsFollow(old(tables), tables, OrgIds(old(tables), was, target))
    {
      if target in tables.orgs { return Taken; }
      if was !in tables.orgs { return NotFound; }
      var ids := OrgIds(tables, was, target);
      if Clash(ids, tables.repos.Keys) { return Failed; }
      OrgRenameKeeps(tables, was, target);
      DependentsFollow(tables, was, target);
      NoClashInjective(ids, tables.repos.Keys);
      tables := Moved(tables, OrgRows(tables, was, target), ids);
      tables := tables.(orgs := (tables.orgs - {was})[target := target]);
      return Done;
    }

    /** Only an organisation that no repository names goes, and nothing with it. */
    method DeleteOrg(o: string) returns (outcome: Outcome)
      requires Keys(tables)
      modifies this
      ensures Turn(tables, outcome) == Step(old(tables), OrgDelete(o))
      ensures Keys(tables)
      ensures outcome == NotFound <==> o !in old(tables).orgs
      ensures outcome == Done <==> o in old(tables).orgs && forall r :: r in old(tables).repos ==> old(tables).repos[r].orgId != o
      ensures tables == old(tables).(orgs := if outcome == Done then old(tables).orgs - {o} else old(tables).orgs)
    {
      StepKeepsKeys(tables, OrgDelete(o));
      if o !in tables.orgs { return NotFound; }
      if exists r :: r in tables.repos && tables.repos[r].orgId == o { return Taken; }
      tables := tables.(orgs := tables.orgs - {o});
      return Done;
    }

    /** One delete statement. */
    method ExecuteDelete(d: Delete) returns (ok: bool)
      modifies this
      ensures ok == ApplyDelete(old(tables), d).Some?
      ensures tables == if ok then ApplyDelete(old(tables), d).value else old(tables)
    {
      var u := ApplyDelete(tables, d);
      ok := u.Some?;
      if ok { tables := u.value; }
    }

    /** The parent edges of the repository's changes, one change at a time. */
    method ClearParents(r: string) returns (ghost changeIds: seq<string>)
      modifies this
      ensures tables == WithoutParents(old(tables), ChangesOf(old(tables).history, r))
      ensures Lists(changeIds, ChangesOf(old(tables).history, r))
      ensures Replay(old(tables), ParentDeletes(changeIds)) == Some(tables)
    {
      ghost var t := tables;
      var left := ChangesOf(tables.history, r);
      ghost var done: set<string> := {};
      changeIds := [];
      NothingGone(t);
      while left != {}
        invariant left !! done && left + done == ChangesOf(t.history, r)
        invariant tables == WithoutParents(t, done)
        invariant Lists(changeIds, done) && Replay(t, ParentDeletes(changeIds)) == Some(tables)
        decreases |left|
      {
        var c :| c in left;
        OneLess(left, done, c);
        ParentsDeleted(t, changeIds, done, c);
        var ok := ExecuteDelete(ParentsOf(c));
        changeIds := changeIds + [c];
        left, done := left - {c}, done + {c};
      }
      assert done == ChangesOf(t.history, r);
    }

    /** The tables in between, one statement each, in this order. */
    method ClearTables(r: string)
      modifies this
      ensures tables == AfterMiddle(old(tables), r)
      ensures Replay(old(tables), Middle(r)) == Some(tables)
    {
      ghost var t := tables;
      var statements := Middle(r);
      for i := 0 to |statements|
        invariant Replay(t, statements[..i]) == Some(tables)
      {
        ReplayOne(t, statements[..i], tables, statements[i]);
        assert statements[..i + 1] == statements[..i] + [statements[i]];
        var ok := ExecuteDelete(statements[i]);
      }
      assert statements[..|statements|] == statements;
      MiddleReplays(t, r);
    }

    /** The merge requests, one at a time. */
    method ClearMrs(r: string) returns (ghost mrIds: seq<int>)
      modifies this
      ensures tables == WithoutMrs(old(tables), MrsOf(old(tables).reviews, r))
      ensures Lists(mrIds, MrsOf(old(tables).reviews, r))
      ensures Replay(old(tables), MrDeletes(mrIds)) == Some(tables)
    {
      ghost var t := tables;
      var left := MrsOf(tables.reviews, r);
      ghost var done: set<int> := {};
      mrIds := [];
      NothingGone(t);
      while left != {}
        invariant left !! done && left + done == MrsOf(t.reviews, r)
        invariant tables == WithoutMrs(t, done)
        invariant Lists(mrIds, done) && Replay(t, MrDeletes(mrIds)) == Some(tables)
        decreases |left|
      {
        ghost var some := Pick(left);
        var m: int :| m in left;
        OneLess(left, done, m);
        MrDeleted(t, mrIds, done, m);
        var ok := ExecuteDelete(OneMr(m));
        mrIds := mrIds + [m];
        left, done := left - {m}, done + {m};
      }
      assert done == MrsOf(t.reviews, r);
    }

    /** Everything that hangs on the repository's changes, then the changes. */
    method ClearChanges(r: string) returns (ok: bool, ghost changeIds: seq<string>)
      modifies this
      ensures ok == !Held(old(tables).history, r)
      ensures tables == if ok then Purged(old(tables), r).(repos := old(tables).repos, reviews := old(tables).reviews) else Cleared(old(tables), r)
      ensures Lists(changeIds, ChangesOf(old(tables).history, r))
      ensures !ok ==> ApplyDelete(tables, ChangesIn(r)) == None
      ensures Replay(old(tables), ParentDeletes(changeIds) + Middle(r) + (if ok then [ChangesIn(r)] else [])) == Some(tables)
    {
      ghost var t := tables;
      changeIds := ClearParents(r);
      ghost var edges := tables;
      ClearTables(r);
      assert tables == Cleared(t, r);
      ghost var start := ParentDeletes(changeIds) + Middle(r);
      ReplayMore(t, ParentDeletes(changeIds), edges, Middle(r));
      WithoutChanges(t, r);
      ReplayOne(t, start, tables, ChangesIn(r));
      assert start + [] == start;
      ok := ExecuteDelete(ChangesIn(r));
    }

    /** Each statement commits on its own. The removal is exactly these statements,
        with the changes and merge requests listed in some order; every one of them
        gets through, and every key holds after each, except that the delete of held
        changes fails and ends it. */
    method DeleteRepo(r: string) returns (outcome: Outcome, ghost changeIds: seq<string>, ghost mrIds: seq<int>)
      requires Keys(tables)
      modifies this
      ensures Turn(tables, outcome) == Step(old(tables), RepoDelete(r))
      ensures r in old(tables).repos ==>
        var ds := Statements(r, changeIds, mrIds, outcome == Failed);
        && Replay(old(tables), ds) == Some(tables)
        && (forall n :: 0 <= n <= |ds| ==> KeysAfter(old(tables), ds, n))
        && Lists(changeIds, ChangesOf(old(tables).history, r))
        && (outcome != Failed ==> Lists(mrIds, MrsOf(old(tables).reviews, r)))
      ensures outcome == Failed ==> ApplyDelete(tables, ChangesIn(r)) == None
    {
      changeIds, mrIds := [], [];
      if r !in tables.repos { return Done, changeIds, mrIds; }
      ghost var t := tables;
      var ok;
      ok, changeIds := ClearChanges(r);
      ghost var ds := ParentDeletes(changeIds) + Middle(r);
      if !ok {
        assert ds + [] == ds;
        RemovalKeeps(t, ds);
        RemovalTurn(t, r);
        return Failed, changeIds, mrIds;
      }
      ghost var u := tables;
      mrIds := ClearMrs(r);
      RowDeleted(t, r, tables);
      RemovalReplays(t, ds + [ChangesIn(r)], u, mrIds, tables, r);
      RemovalKeeps(t, Statements(r, changeIds, mrIds, false));
      RemovalTurn(t, r);
      ok := ExecuteDelete(RepoRow(r));
      return Done, changeIds, mrIds;
    }
  }

  lemma RemovalTurn(t: Tables, r: string)
    requires Keys(t) && r in t.repos
    ensures Step(t, RepoDelete(r)) == if Held(t.history, r) then Turn(Cleared(t, r), Failed) else Turn(Purged(t, r), Done)
  {
  }

  lemma RowDeleted(t: Tables, r: string, u: Tables)
    requires Keys(t) && r in t.repos && !Held(t.history, r)
    requires u == WithoutMrs(Purged(t, r).(repos := t.repos, reviews := t.reviews), MrsOf(t.reviews, r))
    ensures ApplyDelete(u, RepoRow(r)) == Some(Purged(t, r))
  {
    RepoGoes(t, r);
  }

  lemma RemovalReplays(t: Tables, start: seq<Delete>, u: Tables, mrIds: seq<int>, v: Tables, r: string)
    requires Replay(t, start) == Some(u) && Replay(u, MrDeletes(mrIds)) == Some(v)
    ensures Replay(t, start + MrDeletes(mrIds) + [RepoRow(r)]) == ApplyDelete(v, RepoRow(r))
  {
    ReplayMore(t, start, u, MrDeletes(mrIds));
    ReplayOne(t, start + MrDeletes(mrIds), v, RepoRow(r));
  }

  lemma MovedOne(rows: map<string, Repo>, was: string, target: string)
    requires was in rows && target !in rows && Injective(map[was := target], rows.Keys)
    ensures var moved := MovedRepos(rows, map[was := target]);
      && moved.Keys == rows.Keys - {was} + {target}
      && moved[target] == rows[was]
      && (forall r :: r in rows && r != was ==> moved[r] == rows[r])
  {
    var ids := map[was := target];
    var moved := MovedRepos(rows, ids);
    assert At(ids, was) == target;
    forall r | r in rows && r != was
      ensures r in moved && moved[r] == rows[r]
    {
      assert At(ids, r) == r;
    }
  }

  lemma RenamedRepos(t: Tables, was: string, target: string)
    requires Keys(t) && was in t.repos && target !in t.repos
    ensures var u := RepoRenamed(t, was, target);
      && u.orgs == t.orgs
      && u.repos.Keys == t.repos.Keys - {was} + {target}
      && u.repos[target] == t.repos[was].(name := LastSegment(target))
      && (forall r :: r in t.repos && r != was ==> u.repos[r] == t.repos[r])
  {
    OneIdInjective(t.repos.Keys, was, target);
    MovedOne(RenamedRows(t, was, target), was, target);
  }

  lemma RemovalKeeps(t: Tables, ds: seq<Delete>)
    requires Keys(t) && Replay(t, ds).Some?
    ensures forall n :: 0 <= n <= |ds| ==> KeysAfter(t, ds, n)
  {
    forall n: nat | n <= |ds| ensures KeysAfter(t, ds, n) { KeysAlong(t, ds, n); }
  }

  lemma MiddleReplays(t: Tables, r: string)
    ensures Replay(t, Middle(r)) == Some(AfterMiddle(t, r))
  {
    var m := Middle(r);
    var u1 := t.(history := DropBookmarks(t.history, r));
    var u2 := u1.(history := DropConflicts(u1.history, r));
    var u3 := u2.(history := DropAnchors(u2.history, r));
    var u4 := u3.(ci := DropRuns(u3.ci, RunsOf(u3.ci, r)));
    ReplayOne(t, [], t, m[0]);
    ReplayOne(t, [] + [m[0]], u1, m[1]);
    ReplayOne(t, [] + [m[0]] + [m[1]], u2, m[2]);
    ReplayOne(t, [] + [m[0]] + [m[1]] + [m[2]], u3, m[3]);
    ReplayOne(t, [] + [m[0]] + [m[1]] + [m[2]] + [m[3]], u4, m[4]);
    assert m == [] + [m[0]] + [m[1]] + [m[2]] + [m[3]] + [m[4]];
  }
}
