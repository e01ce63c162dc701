/** The metadata tables, their foreign and unique keys, and the writers made of
    one statement. A statement that breaks a key has no effect. Columns that no
    key, statement or property tells apart are kept together as `text`. */
module MetaTables {
  import opened Common

  datatype Repo = Repo(orgId: string, name: string, text: string)

  datatype Change = Change(repoId: string, author: string, description: string, sha: Option<string>)
  datatype Anchor = Anchor(changeId: string, commitId: string)
  datatype Conflict = Conflict(repoId: string, changeId: string, path: string, sides: string)
  datatype History = History(
    changes: map<string, Change>,
    parents: set<(string, string)>,
    bookmarks: map<(string, string), bool>,
    anchors: map<(string, string), Anchor>,
    conflicts: map<string, Conflict>)

  datatype Mr = Mr(repoId: string, number: int, text: string, state: string, headChange: string, headSha: Option<string>)
  datatype Note = Note(mrId: int, text: string)
  datatype Reviews = Reviews(mrs: map<int, Mr>, reviews: map<int, Note>, comments: map<int, Note>)

  datatype Workflow = Workflow(repoId: string, path: string, text: string)
  datatype CiRun = CiRun(repoId: string, workflowId: int, trigger: string, status: string)
  datatype CiJob = CiJob(runId: int, text: string, status: string, exitCode: Option<int>)
  datatype Ci = Ci(workflows: map<int, Workflow>, runs: map<int, CiRun>, jobs: map<int, CiJob>)

  datatype Tables = Tables(orgs: map<string, string>, repos: map<string, Repo>, history: History, reviews: Reviews, ci: Ci)

  const EMPTY := Tables(map[], map[], History(map[], {}, map[], map[], map[]), Reviews(map[], map[], map[]), Ci(map[], map[], map[]))

  // ---- keys ---------------------------------------------------------------

  predicate RepoKeys(t: Tables) {
    forall r :: r in t.repos ==> t.repos[r].orgId in t.orgs
  }

  /** `live` is the set of repository ids. */
  predicate HistoryKeys(live: set<string>, h: History) {
    && (forall c :: c in h.changes ==> h.changes[c].repoId in live)
    && (forall p :: p in h.parents ==> p.0 in h.changes && p.1 in h.changes)
    && (forall b :: b in h.bookmarks ==> b.0 in live)
    && (forall a :: a in h.anchors ==> a.0 in live)
    && (forall c :: c in h.conflicts ==> h.conflicts[c].repoId in live && h.conflicts[c].changeId in h.changes)
  }

  predicate ReviewKeys(live: set<string>, v: Reviews) {
    && (forall m :: m in v.mrs ==> v.mrs[m].repoId in live)
    && (forall n :: n in v.reviews ==> v.reviews[n].mrId in v.mrs)
    && (forall n :: n in v.comments ==> v.comments[n].mrId in v.mrs)
  }

  predicate CiKeys(live: set<string>, c: Ci) {
    && (forall w :: w in c.workflows ==> c.workflows[w].repoId in live)
    && (forall x :: x in c.runs ==> c.runs[x].repoId in live && c.runs[x].workflowId in c.workflows)
    && (forall j :: j in c.jobs ==> c.jobs[j].runId in c.runs)
  }

  /** Every foreign key of the schema is satisfied. */
  predicate Keys(t: Tables) {
    && RepoKeys(t)
    && HistoryKeys(t.repos.Keys, t.history)
    && ReviewKeys(t.repos.Keys, t.reviews)
    && CiKeys(t.repos.Keys, t.ci)
  }

  predicate UniqueNumbers(v: Reviews) {
    forall m, n :: m in v.mrs && n in v.mrs && v.mrs[m].repoId == v.mrs[n].repoId && v.mrs[m].number == v.mrs[n].number ==> m == n
  }

  predicate UniquePaths(c: Ci) {
    forall v, w :: v in c.workflows && w in c.workflows && c.workflows[v].repoId == c.workflows[w].repoId && c.workflows[v].path == c.workflows[w].path ==> v == w
  }

  // ---- writers made of one statement --------------------------------------

  datatype NameWrite =
    | CreateOrg(org: string)
    | UpsertOrg(org: string, name: string)
    | UpsertRepo(id: string, repo: Repo)

  datatype HistoryWrite =
    | UpsertChange(id: string, change: Change)
    | UpsertBookmark(repoId: string, name: string, isRemote: bool)
    | SetAnchor(repoId: string, sha: string, anchor: Anchor)
    | UpsertConflict(id: string, conflict: Conflict)

  /** The row ids of numbered tables are chosen by the database; a used one is
      refused. */
  datatype ReviewWrite =
    | InsertMr(id: int, mr: Mr)
    | UpdateMr(id: int, state: Option<string>, headChange: Option<string>, headSha: Option<string>)
    | AddReview(id: int, note: Note)
    | AddComment(id: int, note: Note)

  datatype CiWrite =
    | UpsertWorkflow(id: int, workflow: Workflow)
    | CreateRun(id: int, run: CiRun)
    | SetRunStatus(id: int, status: string)
    | CreateJob(id: int, job: CiJob)
    | SetJobStatus(id: int, status: string, exitCode: Option<int>)

  datatype Statement = OnNames(n: NameWrite) | OnHistory(h: HistoryWrite) | OnReviews(v: ReviewWrite) | OnCi(c: CiWrite)

  /** Inserts a repository, or updates one without moving it to another
      organisation. */
  function NameEffect(t: Tables, s: NameWrite): Option<Tables> {
    match s
    case CreateOrg(o) =>
      if o in t.orgs then None else Some(t.(orgs := t.orgs[o := o]))
    case UpsertOrg(o, name) =>
      Some(t.(orgs := t.orgs[o := name]))
    case UpsertRepo(r, row) =>
      if r in t.repos then Some(t.(repos := t.repos[r := t.repos[r].(name := row.name, text := row.text)]))
      else if row.orgId in t.orgs then Some(t.(repos := t.repos[r := row]))
      else None
  }

  /** An upserted change keeps the repository that stored it first. */
  function HistoryEffect(live: set<string>, h: History, s: HistoryWrite): Option<History> {
    match s
    case UpsertChange(c, row) =>
      if c in h.changes then Some(h.(changes := h.changes[c := h.changes[c].(description := row.description, sha := row.sha)]))
      else if row.repoId in live then Some(h.(changes := h.changes[c := row]))
      else None
    case UpsertBookmark(r, name, isRemote) =>
      if (r, name) in h.bookmarks || r in live then Some(h.(bookmarks := h.bookmarks[(r, name) := isRemote])) else None
    case SetAnchor(r, sha, anchor) =>
      if (r, sha) in h.anchors || r in live then Some(h.(anchors := h.anchors[(r, sha) := anchor])) else None
    case UpsertConflict(c, row) =>
      if c in h.conflicts then Some(h.(conflicts := h.conflicts[c := h.conflicts[c].(sides := row.sides)]))
      else if row.repoId in live && row.changeId in h.changes then Some(h.(conflicts := h.conflicts[c := row]))
      else None
  }

  predicate NumberTaken(v: Reviews, repoId: string, number: int) {
    exists m :: m in v.mrs && v.mrs[m].repoId == repoId && v.mrs[m].number == number
  }

  function Or<T>(o: Option<T>, otherwise: T): T {
    if o.Some? then o.value else otherwise
  }

  function UpdatedMr(row: Mr, s: ReviewWrite): Mr
    requires s.UpdateMr?
  {
    row.(state := Or(s.state, row.state), headChange := Or(s.headChange, row.headChange),
         headSha := if s.headSha.Some? then s.headSha else row.headSha)
  }

  function ReviewEffect(live: set<string>, v: Reviews, s: ReviewWrite): Option<Reviews> {
    match s
    case InsertMr(m, row) =>
      if m !in v.mrs && row.repoId in live && !NumberTaken(v, row.repoId, row.number)
      then Some(v.(mrs := v.mrs[m := row.(state := "open")])) else None
    case UpdateMr(m, _, _, _) =>
      if m in v.mrs then Some(v.(mrs := v.mrs[m := UpdatedMr(v.mrs[m], s)])) else None
    case AddReview(n, row) =>
      if n !in v.reviews && row.mrId in v.mrs then Some(v.(reviews := v.reviews[n := row])) else None
    case AddComment(n, row) =>
      if n !in v.comments && row.mrId in v.mrs then Some(v.(comments := v.comments[n := row])) else None
  }

  predicate PathTaken(c: Ci, repoId: string, path: string) {
    exists w :: w in c.workflows && c.workflows[w].repoId == repoId && c.workflows[w].path == path
  }

  function CiEffect(live: set<string>, c: Ci, s: CiWrite): Option<Ci> {
    match s
    case UpsertWorkflow(w, row) =>
      if PathTaken(c, row.repoId, row.path) then
        Some(c.(workflows := map v | v in c.workflows ::
          if c.workflows[v].repoId == row.repoId && c.workflows[v].path == row.path
          then c.workflows[v].(text := row.text) else c.workflows[v]))
      else if w !in c.workflows && row.repoId in live then Some(c.(workflows := c.workflows[w := row]))
      else None
    case CreateRun(x, row) =>
      if x !in c.runs && row.repoId in live && row.workflowId in c.workflows
      then Some(c.(runs := c.runs[x := row.(status := "queued")])) else None
    case SetRunStatus(x, status) =>
      Some(if x in c.runs then c.(runs := c.runs[x := c.runs[x].(status := status)]) else c)
    case CreateJob(j, row) =>
      if j !in c.jobs && row.runId in c.runs
      then Some(c.(jobs := c.jobs[j := row.(status := "queued", exitCode := None)])) else None
    case SetJobStatus(j, status, exitCode) =>
      Some(if j !in c.jobs then c
           else if status == "success" || status == "failure" then c.(jobs := c.jobs[j := c.jobs[j].(status := status, exitCode := exitCode)])
           else c.(jobs := c.jobs[j := c.jobs[j].(status := status)]))
  }

  function Effect(t: Tables, s: Statement): Option<Tables> {
    match s
    case OnNames(n) => NameEffect(t, n)
    case OnHistory(h) =>
      var u := HistoryEffect(t.repos.Keys, t.history, h);
      if u.Some? then Some(t.(history := u.value)) else None
    case OnReviews(v) =>
      var u := ReviewEffect(t.repos.Keys, t.reviews, v);
      if u.Some? then Some(t.(reviews := u.value)) else None
    case OnCi(c) =>
      var u := CiEffect(t.repos.Keys, t.ci, c);
      if u.Some? then Some(t.(ci := u.value)) else None
  }

  // ---- a statement keeps every key ----------------------------------------

  lemma MoreReposKeep(live: set<string>, more: set<string>, t: Tables)
    requires live <= more
    requires HistoryKeys(live, t.history) && ReviewKeys(live, t.reviews) && CiKeys(live, t.ci)
    ensures HistoryKeys(more, t.history) && ReviewKeys(more, t.reviews) && CiKeys(more, t.ci)
  {
  }

  lemma NameEffectKeeps(t: Tables, s: NameWrite)
    requires Keys(t) && NameEffect(t, s).Some?
    ensures Keys(NameEffect(t, s).value)
  {
    var u := NameEffect(t, s).value;
    assert RepoKeys(u);
    MoreReposKeep(t.repos.Keys, u.repos.Keys, t);
  }

  lemma HistoryEffectKeeps(live: set<string>, h: History, s: HistoryWrite)
    requires HistoryKeys(live, h) && HistoryEffect(live, h, s).Some?
    ensures HistoryKeys(live, HistoryEffect(live, h, s).value)
  {
  }

  lemma ReviewEffectKeeps(live: set<string>, v: Reviews, s: ReviewWrite)
    requires ReviewKeys(live, v) && ReviewEffect(live, v, s).Some?
    ensures ReviewKeys(live, ReviewEffect(live, v, s).value)
  {
  }

  lemma CiEffectKeeps(live: set<string>, c: Ci, s: CiWrite)
    requires CiKeys(live, c) && CiEffect(live, c, s).Some?
    ensures CiKeys(live, CiEffect(live, c, s).value)
  {
  }

  /** A writer checks only the row it writes; that keeps every key of every table. */
  lemma EffectKeepsKeys(t: Tables, s: Statement)
    requires Keys(t) && Effect(t, s).Some?
    ensures Keys(Effect(t, s).value)
  {
    match s
    case OnNames(n) => NameEffectKeeps(t, n);
    case OnHistory(h) => HistoryEffectKeeps(t.repos.Keys, t.history, h);
    case OnReviews(v) => ReviewEffectKeeps(t.repos.Keys, t.reviews, v);
    case OnCi(c) => CiEffectKeeps(t.repos.Keys, t.ci, c);
  }

  lemma UniqueNumbersKept(live: set<string>, v: Reviews, s: ReviewWrite)
    requires UniqueNumbers(v) && ReviewEffect(live, v, s).Some?
    ensures UniqueNumbers(ReviewEffect(live, v, s).value)
  {
  }

  lemma UniquePathsKept(live: set<string>, c: Ci, s: CiWrite)
    requires UniquePaths(c) && CiEffect(live, c, s).Some?
    ensures UniquePaths(CiEffect(live, c, s).value)
  {
  }

  // ---- what a statement stores ------------------------------------------------

  /** `after` has the same rows as `before`, but for the one at `k`. */
  ghost predicate OnlyRow<K(!new), V>(before: map<K, V>, after: map<K, V>, k: K) {
    && after.Keys == before.Keys + {k}
    && forall j :: j in before && j != k ==> after[j] == before[j]
  }

  /** An upserted repository gets the new name and text, and keeps the organisation
      that stored it first. */
  lemma RepoStored(t: Tables, r: string, row: Repo)
    ensures NameEffect(t, UpsertRepo(r, row)).Some? <==> r in t.repos || row.orgId in t.orgs
    ensures r in t.repos || row.orgId in t.orgs ==>
      var u := NameEffect(t, UpsertRepo(r, row)).value;
      && u.(repos := t.repos) == t && OnlyRow(t.repos, u.repos, r)
      && u.repos[r].name == row.name && u.repos[r].text == row.text
      && u.repos[r].orgId == (if r in t.repos then t.repos[r].orgId else row.orgId)
  {
  }

  /** An organisation is created once, named by its id; an upsert names it anew. */
  lemma OrgStored(t: Tables, o: string, name: string)
    ensures NameEffect(t, CreateOrg(o)).Some? <==> o !in t.orgs
    ensures o !in t.orgs ==>
      var u := NameEffect(t, CreateOrg(o)).value;
      u.(orgs := t.orgs) == t && OnlyRow(t.orgs, u.orgs, o) && u.orgs[o] == o
    ensures NameEffect(t, UpsertOrg(o, name)).Some?
    ensures var u := NameEffect(t, UpsertOrg(o, name)).value;
      u.(orgs := t.orgs) == t && OnlyRow(t.orgs, u.orgs, o) && u.orgs[o] == name
  {
  }

  /** An upserted change gets the new description and head, and keeps the
      repository and the author that stored it first. */
  lemma ChangeStored(live: set<string>, h: History, c: string, row: Change)
    ensures HistoryEffect(live, h, UpsertChange(c, row)).Some? <==> c in h.changes || row.repoId in live
    ensures c in h.changes || row.repoId in live ==>
      var k := HistoryEffect(live, h, UpsertChange(c, row)).value;
      && k.(changes := h.changes) == h && OnlyRow(h.changes, k.changes, c)
      && k.changes[c].description == row.description && k.changes[c].sha == row.sha
      && (if c in h.changes
          then k.changes[c].repoId == h.changes[c].repoId && k.changes[c].author == h.changes[c].author
          else k.changes[c].repoId == row.repoId && k.changes[c].author == row.author)
  {
  }

  lemma BookmarkStored(live: set<string>, h: History, r: string, name: string, isRemote: bool)
    ensures HistoryEffect(live, h, UpsertBookmark(r, name, isRemote)).Some? <==> (r, name) in h.bookmarks || r in live
    ensures (r, name) in h.bookmarks || r in live ==>
      var k := HistoryEffect(live, h, UpsertBookmark(r, name, isRemote)).value;
      && k.(bookmarks := h.bookmarks) == h && OnlyRow(h.bookmarks, k.bookmarks, (r, name))
      && k.bookmarks[(r, name)] == isRemote
  {
  }

  lemma AnchorStored(live: set<string>, h: History, r: string, sha: string, anchor: Anchor)
    ensures HistoryEffect(live, h, SetAnchor(r, sha, anchor)).Some? <==> (r, sha) in h.anchors || r in live
    ensures (r, sha) in h.anchors || r in live ==>
      var k := HistoryEffect(live, h, SetAnchor(r, sha, anchor)).value;
      && k.(anchors := h.anchors) == h && OnlyRow(h.anchors, k.anchors, (r, sha)) && k.anchors[(r, sha)] == anchor
  {
  }

  /** An upserted conflict gets the new sides and keeps everything else. */
  lemma ConflictStored(live: set<string>, h: History, c: string, row: Conflict)
    ensures HistoryEffect(live, h, UpsertConflict(c, row)).Some?
       <==> c in h.conflicts || (row.repoId in live && row.changeId in h.changes)
    ensures HistoryEffect(live, h, UpsertConflict(c, row)).Some? ==>
      var k := HistoryEffect(live, h, UpsertConflict(c, row)).value;
      && k.(conflicts := h.conflicts) == h && OnlyRow(h.conflicts, k.conflicts, c) && k.conflicts[c].sides == row.sides
      && (if c in h.conflicts
          then k.conflicts[c].repoId == h.conflicts[c].repoId && k.conflicts[c].changeId == h.conflicts[c].changeId
               && k.conflicts[c].path == h.conflicts[c].path
          else k.conflicts[c] == row)
  {
  }

  /** A new merge request is open, whatever it is inserted with. */
  lemma MrStored(live: set<string>, v: Reviews, m: int, row: Mr)
    ensures ReviewEffect(live, v, InsertMr(m, row)).Some? <==>
      && m !in v.mrs && row.repoId in live
      && forall n :: n in v.mrs ==> !(v.mrs[n].repoId == row.repoId && v.mrs[n].number == row.number)
    ensures ReviewEffect(live, v, InsertMr(m, row)).Some? ==>
      var w := ReviewEffect(live, v, InsertMr(m, row)).value;
      && w.(mrs := v.mrs) == v && OnlyRow(v.mrs, w.mrs, m)
      && w.mrs[m].state == "open" && w.mrs[m].(state := row.state) == row
  {
  }

  /** An update sets what it names and leaves the other columns. */
  lemma MrUpdated(live: set<string>, v: Reviews, m: int, state: Option<string>, headChange: Option<string>, headSha: Option<string>)
    ensures ReviewEffect(live, v, UpdateMr(m, state, headChange, headSha)).Some? <==> m in v.mrs
    ensures m in v.mrs ==>
      var w := ReviewEffect(live, v, UpdateMr(m, state, headChange, headSha)).value;
      var a, b := v.mrs[m], w.mrs[m];
      && w.(mrs := v.mrs) == v && OnlyRow(v.mrs, w.mrs, m)
      && b.repoId == a.repoId && b.number == a.number && b.text == a.text
      && (state.Some? ==> b.state == state.value) && (state.None? ==> b.state == a.state)
      && (headChange.Some? ==> b.headChange == headChange.value) && (headChange.None? ==> b.headChange == a.headChange)
      && (headSha.Some? ==> b.headSha == headSha) && (headSha.None? ==> b.headSha == a.headSha)
  {
  }

  lemma NotesStored(live: set<string>, v: Reviews, n: int, note: Note)
    ensures ReviewEffect(live, v, AddReview(n, note)).Some? <==> n !in v.reviews && note.mrId in v.mrs
    ensures ReviewEffect(live, v, AddReview(n, note)).Some? ==>
      var w := ReviewEffect(live, v, AddReview(n, note)).value;
      w.(reviews := v.reviews) == v && OnlyRow(v.reviews, w.reviews, n) && w.reviews[n] == note
    ensures ReviewEffect(live, v, AddComment(n, note)).Some? <==> n !in v.comments && note.mrId in v.mrs
    ensures ReviewEffect(live, v, AddComment(n, note)).Some? ==>
      var w := ReviewEffect(live, v, AddComment(n, note)).value;
      w.(comments := v.comments) == v && OnlyRow(v.comments, w.comments, n) && w.comments[n] == note
  {
  }

  /** A workflow is known by its repository and path: a second upsert, whatever its
      row id, gives the one row a new text and adds none. */
  lemma WorkflowStored(live: set<string>, c: Ci, w: int, row: Workflow, known: int)
    requires UniquePaths(c)
    ensures known in c.workflows && c.workflows[known].repoId == row.repoId && c.workflows[known].path == row.path ==>
      var d := CiEffect(live, c, UpsertWorkflow(w, row));
      && d.Some? && d.value.(workflows := c.workflows) == c && OnlyRow(c.workflows, d.value.workflows, known)
      && d.value.workflows[known] == row
    ensures (forall v :: v in c.workflows ==> !(c.workflows[v].repoId == row.repoId && c.workflows[v].path == row.path)) ==>
      var d := CiEffect(live, c, UpsertWorkflow(w, row));
      && (d.Some? <==> w !in c.workflows && row.repoId in live)
      && (d.Some? ==> d.value.(workflows := c.workflows) == c && OnlyRow(c.workflows, d.value.workflows, w) && d.value.workflows[w] == row)
  {
  }

  /** Runs and jobs start queued, jobs without an exit code. */
  lemma RunStored(live: set<string>, c: Ci, x: int, row: CiRun, status: string)
    ensures CiEffect(live, c, CreateRun(x, row)).Some? <==> x !in c.runs && row.repoId in live && row.workflowId in c.workflows
    ensures CiEffect(live, c, CreateRun(x, row)).Some? ==>
      var d := CiEffect(live, c, CreateRun(x, row)).value;
      && d.(runs := c.runs) == c && OnlyRow(c.runs, d.runs, x)
      && d.runs[x].status == "queued" && d.runs[x].(status := row.status) == row
    ensures x in c.runs ==>
      var d := CiEffect(live, c, SetRunStatus(x, status));
      && d.Some? && d.value.(runs := c.runs) == c && OnlyRow(c.runs, d.value.runs, x)
      && d.value.runs[x].status == status && d.value.runs[x].(status := c.runs[x].status) == c.runs[x]
    ensures x !in c.runs ==> CiEffect(live, c, SetRunStatus(x, status)) == Some(c)
  {
  }

  /** Only the two final statuses write the exit code. */
  lemma JobStored(live: set<string>, c: Ci, j: int, row: CiJob, status: string, exitCode: Option<int>)
    ensures CiEffect(live, c, CreateJob(j, row)).Some? <==> j !in c.jobs && row.runId in c.runs
    ensures CiEffect(live, c, CreateJob(j, row)).Some? ==>
      var d := CiEffect(live, c, CreateJob(j, row)).value;
      && d.(jobs := c.jobs) == c && OnlyRow(c.jobs, d.jobs, j)
      && d.jobs[j] == CiJob(row.runId, row.text, "queued", None)
    ensures j in c.jobs ==>
      var d := CiEffect(live, c, SetJobStatus(j, status, exitCode));
      && d.Some? && d.value.(jobs := c.jobs) == c && OnlyRow(c.jobs, d.value.jobs, j)
      && d.value.jobs[j].runId == c.jobs[j].runId && d.value.jobs[j].text == c.jobs[j].text && d.value.jobs[j].status == status
      && d.value.jobs[j].exitCode == (if status in {"success", "failure"} then exitCode else c.jobs[j].exitCode)
    ensures j !in c.jobs ==> CiEffect(live, c, SetJobStatus(j, status, exitCode)) == Some(c)
  {
  }

  /** Each statement changes the tables of its own part only. */
  lemma OtherPartsStay(t: Tables, s: Statement)
    requires Effect(t, s).Some?
    ensures var u := Effect(t, s).value;
      match s
      case OnNames(_) => u.history == t.history && u.reviews == t.reviews && u.ci == t.ci
      case OnHistory(w) => u.(history := t.history) == t && Some(u.history) == HistoryEffect(t.repos.Keys, t.history, w)
      case OnReviews(w) => u.(reviews := t.reviews) == t && Some(u.reviews) == ReviewEffect(t.repos.Keys, t.reviews, w)
      case OnCi(w) => u.(ci := t.ci) == t && Some(u.ci) == CiEffect(t.repos.Keys, t.ci, w)
  {
  }
}
