/** The workflow id that a push works with: the row id of the connection's last
    insert, which an update does not set. */
module WorkflowIds {
  import opened Common
  import opened MetaTables
  import opened RepoRemoval

  /** One pooled connection: the tables it sees and the row id of the last row
      it inserted into any of them. */
  datatype Session = Session(ci: Ci, last: int)

  datatype Upserted = Upserted(after: Session, returned: int)

  ghost predicate IsWorkflow(c: Ci, id: int, repoId: string, path: string) {
    id in c.workflows && c.workflows[id].repoId == repoId && c.workflows[id].path == path
  }

  /** Inserts or updates the workflow; `id` is the row id an insert would use. */
  function Upsert(live: set<string>, s: Session, id: int, row: Workflow): Option<Upserted> {
    var u := CiEffect(live, s.ci, UpsertWorkflow(id, row));
    if u.None? then None
    else
      var last := if PathTaken(s.ci, row.repoId, row.path) then s.last else id;
      Some(Upserted(Session(u.value, last), last))
  }

  /** The returned id is the workflow's exactly when the row is new, or when the
      connection's last insert happened to have the workflow's id. */
  lemma ReturnedId(live: set<string>, s: Session, id: int, row: Workflow)
    requires Upsert(live, s, id, row).Some?
    ensures var u := Upsert(live, s, id, row).value;
      IsWorkflow(u.after.ci, u.returned, row.repoId, row.path) <==>
        (!PathTaken(s.ci, row.repoId, row.path) || IsWorkflow(s.ci, s.last, row.repoId, row.path))
  {
  }

  /** A push: the upsert, then a run and its jobs. None where a statement fails,
      which ends the push. */
  function Push(live: set<string>, s: Session, id: int, row: Workflow, run: int, jobs: seq<int>): Option<Session> {
    var u := Upsert(live, s, id, row);
    if u.None? then None
    else
      var started := CiEffect(live, u.value.after.ci, CreateRun(run, CiRun(row.repoId, u.value.returned, "", "")));
      if started.None? then None
      else Some(AddJobs(live, Session(started.value, run), run, jobs))
  }

  /** A failed job insert is passed over. */
  function AddJobs(live: set<string>, s: Session, run: int, jobs: seq<int>): Session
    decreases |jobs|
  {
    if jobs == [] then s
    else
      var added := CiEffect(live, s.ci, CreateJob(jobs[0], CiJob(run, "", "", None)));
      AddJobs(live, if added.Some? then Session(added.value, jobs[0]) else s, run, jobs[1..])
  }

  lemma {:induction false} AddJobsLast(live: set<string>, s: Session, run: int, jobs: seq<int>)
    requires run in s.ci.runs
    requires forall i :: 0 <= i < |jobs| ==> jobs[i] !in s.ci.jobs
    requires forall i, j :: 0 <= i < j < |jobs| ==> jobs[i] != jobs[j]
    ensures var t := AddJobs(live, s, run, jobs);
      t.last == (if jobs == [] then s.last else jobs[|jobs| - 1]) && t.ci.workflows == s.ci.workflows && t.ci.runs == s.ci.runs
    decreases |jobs|
  {
    if jobs != [] {
      var added := CiEffect(live, s.ci, CreateJob(jobs[0], CiJob(run, "", "", None))).value;
      assert added.jobs.Keys == s.ci.jobs.Keys + {jobs[0]};
      AddJobsLast(live, Session(added, jobs[0]), run, jobs[1..]);
    }
  }

  /** A second push of one workflow on the same connection files its run under
      whatever workflow has the id of the first push's last job. */
  lemma SecondPush(live: set<string>, s: Session, id: int, row: Workflow, run: int, jobs: seq<int>, again: int, next: int)
    requires row.repoId in live && id !in s.ci.workflows && !PathTaken(s.ci, row.repoId, row.path)
    requires run !in s.ci.runs && next !in s.ci.runs && next != run && jobs != []
    requires forall i :: 0 <= i < |jobs| ==> jobs[i] !in s.ci.jobs
    requires forall i, j :: 0 <= i < j < |jobs| ==> jobs[i] != jobs[j]
    ensures var first := Push(live, s, id, row, run, jobs);
      && first.Some?
      && var last := jobs[|jobs| - 1];
      var second := Push(live, first.value, again, row, next, []);
      && (second.Some? <==> last == id || last in s.ci.workflows)
      && (second.Some? ==> second.value.ci.runs[next].workflowId == last)
  {
    var u := Upsert(live, s, id, row).value;
    assert u.returned == id && u.after.ci.workflows == s.ci.workflows[id := row];
    var started := CiEffect(live, u.after.ci, CreateRun(run, CiRun(row.repoId, id, "", ""))).value;
    AddJobsLast(live, Session(started, run), run, jobs);
    var t := Push(live, s, id, row, run, jobs).value;
    assert IsWorkflow(t.ci, id, row.repoId, row.path);
    assert PathTaken(t.ci, row.repoId, row.path);
    var v := Upsert(live, t, again, row).value;
    assert v.returned == jobs[|jobs| - 1] && v.after.ci.workflows.Keys == t.ci.workflows.Keys;
  }

  /** If that id is another repository's workflow, the run belongs to one
      repository and hangs on the other: removing the other deletes it. */
  lemma ForeignRunRemoved(live: set<string>, s: Session, id: int, row: Workflow, run: int, jobs: seq<int>, again: int, next: int)
    requires row.repoId in live && id !in s.ci.workflows && !PathTaken(s.ci, row.repoId, row.path)
    requires run !in s.ci.runs && next !in s.ci.runs && next != run && jobs != []
    requires forall i :: 0 <= i < |jobs| ==> jobs[i] !in s.ci.jobs
    requires forall i, j :: 0 <= i < j < |jobs| ==> jobs[i] != jobs[j]
    requires jobs[|jobs| - 1] in s.ci.workflows && s.ci.workflows[jobs[|jobs| - 1]].repoId != row.repoId
    ensures var other := s.ci.workflows[jobs[|jobs| - 1]].repoId;
      var first := Push(live, s, id, row, run, jobs);
      && first.Some?
      && var second := Push(live, first.value, again, row, next, []);
      && second.Some?
      && next in second.value.ci.runs && second.value.ci.runs[next].repoId == row.repoId
      && next !in ClearedCi(second.value.ci, other).runs
  {
    SecondPush(live, s, id, row, run, jobs, again, next);
    var last := jobs[|jobs| - 1];
    var first := Push(live, s, id, row, run, jobs).value;
    PushKeepsWorkflow(live, s, id, row, run, jobs, last);
    PushKeepsWorkflow(live, first, again, row, next, [], last);
    var c := Push(live, first, again, row, next, []).value.ci;
    PushFiles(live, first, again, row, next);
    RunOfWorkflowGoes(c, next, s.ci.workflows[last].repoId);
  }

  lemma {:induction false} AddJobsKeeps(live: set<string>, s: Session, run: int, jobs: seq<int>)
    ensures AddJobs(live, s, run, jobs).ci.workflows == s.ci.workflows && AddJobs(live, s, run, jobs).ci.runs == s.ci.runs
    decreases |jobs|
  {
    if jobs != [] {
      var added := CiEffect(live, s.ci, CreateJob(jobs[0], CiJob(run, "", "", None)));
      AddJobsKeeps(live, if added.Some? then Session(added.value, jobs[0]) else s, run, jobs[1..]);
    }
  }

  lemma PushKeepsWorkflow(live: set<string>, s: Session, id: int, row: Workflow, run: int, jobs: seq<int>, w: int)
    requires Push(live, s, id, row, run, jobs).Some? && w in s.ci.workflows
    ensures var c := Push(live, s, id, row, run, jobs).value.ci; w in c.workflows && c.workflows[w].repoId == s.ci.workflows[w].repoId
  {
    var u := Upsert(live, s, id, row).value;
    var started := CiEffect(live, u.after.ci, CreateRun(run, CiRun(row.repoId, u.returned, "", ""))).value;
    AddJobsKeeps(live, Session(started, run), run, jobs);
  }

  lemma PushFiles(live: set<string>, s: Session, id: int, row: Workflow, run: int)
    requires Push(live, s, id, row, run, []).Some?
    ensures var c := Push(live, s, id, row, run, []).value.ci; run in c.runs && c.runs[run].repoId == row.repoId
  {
  }

  lemma RunOfWorkflowGoes(c: Ci, x: int, r: string)
    requires x in c.runs && c.runs[x].workflowId in c.workflows && c.workflows[c.runs[x].workflowId].repoId == r
    ensures x !in ClearedCi(c, r).runs
  {
  }

  /** It happens: with one workflow of `o/a`, two pushes of `o/b` on a connection
      file a run of `o/b` that goes when `o/a` is removed. */
  lemma ForeignRunExample()
    ensures var live, row := {"o/a", "o/b"}, Workflow("o/b", "ci.yml", "");
      var s := Session(Ci(map[2 := Workflow("o/a", "ci.yml", "")], map[], map[]), 0);
      var first := Push(live, s, 3, row, 1, [1, 2]);
      && first.Some?
      && var second := Push(live, first.value, 4, row, 2, []);
      && second.Some? && 2 in second.value.ci.runs && second.value.ci.runs[2].repoId == "o/b"
      && 2 !in ClearedCi(second.value.ci, "o/a").runs
  {
    var live, row := {"o/a", "o/b"}, Workflow("o/b", "ci.yml", "");
    var s := Session(Ci(map[2 := Workflow("o/a", "ci.yml", "")], map[], map[]), 0);
    assert "o/a"[2] != "o/b"[2];
    ForeignRunRemoved(live, s, 3, row, 1, [1, 2], 4, 2);
  }
}
