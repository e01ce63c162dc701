/** The queue one statement at a time: any number of enqueues, each inserting its
    run, its jobs one by one and last, without jobs, the skipped status; and one
    scheduler that reads the pending list, then lists and executes the jobs of
    each run in it. */
module QueueSteps {
  import opened Common
  import opened RunQueue

  /** A run, the jobs its enqueue has still to insert (None once it has
      returned), and how many jobs its execution started. */
  datatype Row = Row(run: Run, left: Option<seq<Job>>, ran: nat)

  /** `pending` is what is left of the list read; `listed` is how many jobs of
      its first run were listed. */
  datatype Scheduler = Idle | Busy(pending: seq<nat>, listed: Option<nat>)

  /** `log` holds the runs executed, in order. */
  datatype Machine = Machine(rows: seq<Row>, scheduler: Scheduler, log: seq<nat>)

  datatype Move =
    | Insert(repoId: string, wf: seq<WorkflowJob>)
    | AddJob(i: nat)
    | Finish(i: nat)
    | ReadPending
    | ListJobs
    | Execute(world: World)

  function Table(rows: seq<Row>): (runs: seq<Run>)
    ensures |runs| == |rows|
  {
    seq(|rows|, i requires 0 <= i < |rows| => rows[i].run)
  }

  /** The run ids still in the scheduler's hands. */
  function Held(m: Machine): seq<nat> {
    if m.scheduler.Idle? then [] else m.scheduler.pending
  }

  function FirstQueued(rows: seq<Row>, cap: nat): seq<nat> {
    var all := Pending(Table(rows));
    if |all| > cap then all[..cap] else all
  }

  predicate Enabled(m: Machine, move: Move) {
    match move
    case Insert(_, _) => true
    case AddJob(i) => i < |m.rows| && m.rows[i].left.Some? && m.rows[i].left.value != []
    case Finish(i) => i < |m.rows| && m.rows[i].left == Some([])
    case ReadPending => m.scheduler.Idle?
    case ListJobs => m.scheduler.Busy? && m.scheduler.listed.None? && m.scheduler.pending != [] && m.scheduler.pending[0] < |m.rows|
    case Execute(_) =>
      && m.scheduler.Busy? && m.scheduler.listed.Some? && m.scheduler.pending != []
      && m.scheduler.pending[0] < |m.rows| && m.scheduler.listed.value <= |m.rows[m.scheduler.pending[0]].run.jobs|
  }

  /** Execution of the first `n` jobs; later ones are not started. */
  function ExecutedRow(row: Row, n: nat, w: World): Row
    requires n <= |row.run.jobs|
  {
    var after := Executed(row.run.(jobs := row.run.jobs[..n]), w);
    row.(run := row.run.(jobs := after.jobs + row.run.jobs[n..], status := after.status),
         ran := if Starts(row.run, w) then n else 0)
  }

  function AddedRow(row: Row): Row
    requires row.left.Some? && row.left.value != []
  {
    row.(run := row.run.(jobs := row.run.jobs + [row.left.value[0]]), left := Some(row.left.value[1..]))
  }

  function FinishedRow(row: Row): Row {
    row.(run := if row.run.jobs == [] then row.run.(status := Skipped) else row.run, left := None)
  }

  function Apply(m: Machine, move: Move, cap: nat): Machine
    requires Enabled(m, move)
  {
    match move
    case Insert(repoId, wf) => m.(rows := m.rows + [Row(Run(|m.rows|, repoId, [], Queued), Some(JobsOf(wf)), 0)])
    case AddJob(i) => m.(rows := m.rows[i := AddedRow(m.rows[i])])
    case Finish(i) => m.(rows := m.rows[i := FinishedRow(m.rows[i])])
    case ReadPending =>
      var pending := FirstQueued(m.rows, cap);
      m.(scheduler := if pending == [] then Idle else Busy(pending, None))
    case ListJobs =>
      m.(scheduler := m.scheduler.(listed := Some(|m.rows[m.scheduler.pending[0]].run.jobs|)))
    case Execute(w) =>
      var i, rest := m.scheduler.pending[0], m.scheduler.pending[1..];
      Machine(m.rows[i := ExecutedRow(m.rows[i], m.scheduler.listed.value, w)],
              if rest == [] then Idle else Busy(rest, None), m.log + [i])
  }

  const START := Machine([], Idle, [])

  /** The machine after the moves, in order; None if one is not possible. */
  function Play(m: Machine, moves: seq<Move>, cap: nat): Option<Machine>
    decreases |moves|
  {
    if moves == [] then Some(m)
    else
      var last := |moves| - 1;
      match Play(m, moves[..last], cap)
      case None => None
      case Some(n) => if Enabled(n, moves[last]) then Some(Apply(n, moves[last], cap)) else None
  }

  // ---- the invariant --------------------------------------------------------

  /** The enqueue has returned and had no job to insert. */
  predicate Empty(row: Row) { row.left.None? && row.run.jobs == [] }

  predicate AllQueued(jobs: seq<Job>) {
    forall k :: 0 <= k < |jobs| ==> jobs[k].status == JobQueued
  }

  /** What a row looks like before and after its execution. */
  predicate RowOk(row: Row, executed: bool) {
    && (row.left.Some? ==> AllQueued(row.left.value))
    && row.ran <= |row.run.jobs|
    && (if executed then
          && row.run.status != Queued && (row.run.status == Skipped ==> Empty(row))
          && (forall k :: 0 <= k < |row.run.jobs| ==> (row.run.jobs[k].status == JobQueued <==> k >= row.ran))
        else
          && AllQueued(row.run.jobs) && row.ran == 0
          && row.run.status == (if Empty(row) then Skipped else Queued))
  }

  /** Executed runs and then the ones in hand, in id order; what is queued is in
      hand or comes after all of them. */
  predicate OrderOk(m: Machine) {
    && StrictlyAscending(m.log + Held(m))
    && (forall x :: x in m.log + Held(m) ==> x < |m.rows|)
    && (forall i, x :: 0 <= i < |m.rows| && m.rows[i].run.status == Queued && x in m.log + Held(m) ==> i in Held(m) || x < i)
  }

  predicate SchedulerOk(m: Machine) {
    m.scheduler.Busy? ==>
      && m.scheduler.pending != [] && m.scheduler.pending[0] < |m.rows|
      && (m.scheduler.listed.Some? ==> m.scheduler.listed.value <= |m.rows[m.scheduler.pending[0]].run.jobs|)
  }

  ghost predicate Inv(m: Machine) {
    && OrderOk(m) && SchedulerOk(m)
    && (forall i :: 0 <= i < |m.rows| ==> m.rows[i].run.id == i && RowOk(m.rows[i], i in m.log))
  }

  lemma {:induction false} StepJobsQueued(key: string, steps: seq<Step>)
    ensures AllQueued(StepJobs(key, steps))
    decreases |steps|
  {
    if steps != [] { StepJobsQueued(key, steps[..|steps| - 1]); }
  }

  lemma {:induction false} JobsOfQueued(wf: seq<WorkflowJob>)
    ensures AllQueued(JobsOf(wf))
    decreases |wf|
  {
    if wf != [] {
      JobsOfQueued(wf[..|wf| - 1]);
      var last := wf[|wf| - 1];
      if last.steps.Some? { StepJobsQueued(last.key, last.steps.value); }
    }
  }

  /** The pending list holds exactly the queued rows, in order. */
  lemma {:induction false} PendingIsQueued(runs: seq<Run>)
    ensures StrictlyAscending(Pending(runs))
    ensures forall i :: i in Pending(runs) <==> 0 <= i < |runs| && runs[i].status == Queued
    decreases |runs|
  {
    if runs != [] {
      var last := |runs| - 1;
      PendingIsQueued(runs[..last]);
      AscendingConcat(Pending(runs[..last]), if runs[last].status == Queued then [last] else []);
    }
  }

  lemma FirstQueuedIs(rows: seq<Row>, cap: nat)
    ensures var f := FirstQueued(rows, cap);
      && StrictlyAscending(f)
      && (forall i :: i in f ==> 0 <= i < |rows| && rows[i].run.status == Queued)
      && (forall i, x :: 0 <= i < |rows| && rows[i].run.status == Queued && x in f ==> i in f || x < i)
  {
    var runs, all, f := Table(rows), Pending(Table(rows)), FirstQueued(rows, cap);
    PendingIsQueued(runs);
    forall i | i in f
      ensures 0 <= i < |rows| && rows[i].run.status == Queued
    {
      assert i in all && runs[i].status == Queued;
    }
    forall i: nat, x | i < |rows| && rows[i].run.status == Queued && x in f
      ensures i in f || x < i
    {
      assert runs[i].status == Queued;
      var k :| 0 <= k < |all| && all[k] == i;
      if k < |f| { assert f[k] == i; }
    }
  }

  lemma ExecutedRowOk(row: Row, n: nat, w: World)
    requires RowOk(row, false) && n <= |row.run.jobs|
    ensures RowOk(ExecutedRow(row, n, w), true)
    ensures ExecutedRow(row, n, w).run.status in {Success, Failure}
    ensures ExecutedRow(row, n, w).run.id == row.run.id && ExecutedRow(row, n, w).left == row.left
    ensures |ExecutedRow(row, n, w).run.jobs| == |row.run.jobs|
  {
    var short := row.run.(jobs := row.run.jobs[..n]);
    SuccessIffJobsSucceed(short, w);
    var after, e := Executed(short, w), ExecutedRow(row, n, w);
    assert |after.jobs| == n;
    forall k | 0 <= k < |e.run.jobs|
      ensures e.run.jobs[k].status == JobQueued <==> k >= e.ran
    {
      if k >= n { assert e.run.jobs[k] == row.run.jobs[k]; }
    }
  }

  lemma InsertKeeps(m: Machine, repoId: string, wf: seq<WorkflowJob>, cap: nat)
    requires Inv(m)
    ensures Inv(Apply(m, Insert(repoId, wf), cap))
  {
    JobsOfQueued(wf);
    assert forall x :: x in m.log ==> x in m.log + Held(m);
  }

  lemma RowChangeKeeps(m: Machine, n: Machine, i: nat)
    requires Inv(m) && i < |m.rows| && |n.rows| == |m.rows| && n.scheduler == m.scheduler && n.log == m.log
    requires forall k :: 0 <= k < |m.rows| && k != i ==> n.rows[k] == m.rows[k]
    requires n.rows[i].run.id == i && RowOk(n.rows[i], i in m.log) && |n.rows[i].run.jobs| >= |m.rows[i].run.jobs|
    requires n.rows[i].run.status == Queued ==> m.rows[i].run.status == Queued
    ensures Inv(n)
  {
  }

  lemma AddJobKeeps(m: Machine, i: nat, cap: nat)
    requires Inv(m) && Enabled(m, AddJob(i))
    ensures Inv(Apply(m, AddJob(i), cap))
  {
    var row := m.rows[i];
    assert RowOk(row, i in m.log);
    assert RowOk(AddedRow(row), i in m.log);
    RowChangeKeeps(m, Apply(m, AddJob(i), cap), i);
  }

  lemma FinishKeeps(m: Machine, i: nat, cap: nat)
    requires Inv(m) && Enabled(m, Finish(i))
    ensures Inv(Apply(m, Finish(i), cap))
  {
    assert RowOk(m.rows[i], i in m.log);
    RowChangeKeeps(m, Apply(m, Finish(i), cap), i);
  }

  lemma ReadKeeps(m: Machine, cap: nat)
    requires Inv(m) && Enabled(m, ReadPending)
    ensures Inv(Apply(m, ReadPending, cap))
  {
    var n := Apply(m, ReadPending, cap);
    var f := FirstQueued(m.rows, cap);
    FirstQueuedIs(m.rows, cap);
    assert m.log + [] == m.log;
    assert Held(n) == f;
    forall x, y | x in m.log && y in f
      ensures x < y
    {
      assert x in m.log + Held(m) && m.rows[y].run.status == Queued;
    }
    AscendingConcat(m.log, f);
    forall i, x | 0 <= i < |m.rows| && m.rows[i].run.status == Queued && x in m.log + f
      ensures i in f || x < i
    {
      if x in m.log { assert x in m.log + Held(m); }
    }
    if f != [] { assert f[0] in f; }
  }

  lemma InHandNotExecuted(m: Machine, i: nat)
    requires OrderOk(m) && i in Held(m)
    ensures i !in m.log
  {
    var all, k := m.log + Held(m), |m.log|;
    var b :| 0 <= b < |Held(m)| && Held(m)[b] == i;
    forall a | 0 <= a < |m.log|
      ensures m.log[a] != i
    {
      assert all[a] < all[k + b];
    }
  }

  lemma ExecuteKeeps(m: Machine, w: World, cap: nat)
    requires Inv(m) && Enabled(m, Execute(w))
    ensures Inv(Apply(m, Execute(w), cap))
  {
    var n := Apply(m, Execute(w), cap);
    var i, rest := m.scheduler.pending[0], m.scheduler.pending[1..];
    assert i in Held(m);
    InHandNotExecuted(m, i);
    ExecutedRowOk(m.rows[i], m.scheduler.listed.value, w);
    assert Held(n) == rest;
    assert n.log + Held(n) == m.log + Held(m);
    if rest != [] { assert rest[0] in m.log + Held(m); }
    forall k | 0 <= k < |n.rows|
      ensures n.rows[k].run.id == k && RowOk(n.rows[k], k in n.log)
    {
      assert RowOk(m.rows[k], k in m.log);
    }
    assert forall k :: k in Held(m) <==> k == i || k in rest;
  }

  lemma MoveKeeps(m: Machine, move: Move, cap: nat)
    requires Inv(m) && Enabled(m, move)
    ensures Inv(Apply(m, move, cap))
  {
    match move
    case Insert(repoId, wf) => InsertKeeps(m, repoId, wf, cap);
    case AddJob(i) => AddJobKeeps(m, i, cap);
    case Finish(i) => FinishKeeps(m, i, cap);
    case ReadPending => ReadKeeps(m, cap);
    case ListJobs =>
    case Execute(w) => ExecuteKeeps(m, w, cap);
  }

  lemma {:induction false} PlayKeeps(moves: seq<Move>, cap: nat)
    requires Play(START, moves, cap).Some?
    ensures Inv(Play(START, moves, cap).value)
    decreases |moves|
  {
    if moves != [] {
      var last := |moves| - 1;
      PlayKeeps(moves[..last], cap);
      MoveKeeps(Play(START, moves[..last], cap).value, moves[last], cap);
    }
  }

  // ---- what every run guarantees -------------------------------------------------

  /** Runs are executed in id order, each at most once, however enqueues and the
      scheduler interleave. */
  lemma ExecutedInOrder(moves: seq<Move>, cap: nat)
    requires Play(START, moves, cap).Some?
    ensures StrictlyAscending(Play(START, moves, cap).value.log)
  {
    PlayKeeps(moves, cap);
    var m := Play(START, moves, cap).value;
    assert forall i :: 0 <= i < |m.log| ==> (m.log + Held(m))[i] == m.log[i];
  }

  lemma {:induction false} PlayPrefix(moves: seq<Move>, n: nat, cap: nat)
    requires Play(START, moves, cap).Some? && n <= |moves|
    ensures Play(START, moves[..n], cap).Some?
    decreases |moves|
  {
    if n < |moves| {
      var last := |moves| - 1;
      PlayPrefix(moves[..last], n, cap);
      assert moves[..last][..n] == moves[..n];
    } else {
      assert moves[..n] == moves;
    }
  }

  /** Everything an executed row keeps: what ran, and the jobs it has. */
  predicate Settled(m: Machine, n: Machine, i: nat)
    requires i < |m.rows|
  {
    && i < |n.rows| && i in n.log && n.rows[i].ran == m.rows[i].ran
    && m.rows[i].run.jobs <= n.rows[i].run.jobs
  }

  lemma MoveSettled(m: Machine, move: Move, i: nat, cap: nat)
    requires Inv(m) && Enabled(m, move) && i < |m.rows| && i in m.log
    ensures Settled(m, Apply(m, move, cap), i)
  {
    if move.Execute? {
      assert m.scheduler.pending[0] in Held(m);
      InHandNotExecuted(m, m.scheduler.pending[0]);
    }
  }

  lemma SettledTwice(m: Machine, n: Machine, o: Machine, i: nat)
    requires i < |m.rows| && Settled(m, n, i) && Settled(n, o, i)
    ensures Settled(m, o, i)
  {
  }

  lemma SettledNext(m: Machine, moves: seq<Move>, i: nat, cap: nat)
    requires moves != [] && Play(START, moves, cap).Some?
    requires i < |m.rows| && Settled(m, Play(START, moves[..|moves| - 1], cap).value, i)
    ensures Settled(m, Play(START, moves, cap).value, i)
  {
    var before := moves[..|moves| - 1];
    var n := Play(START, before, cap).value;
    PlayKeeps(before, cap);
    MoveSettled(n, moves[|moves| - 1], i, cap);
    SettledTwice(m, n, Play(START, moves, cap).value, i);
  }

  lemma {:induction false} StaysSettled(m: Machine, moves: seq<Move>, n: nat, i: nat, cap: nat)
    requires Play(START, moves, cap).Some? && n <= |moves| && Play(START, moves[..n], cap) == Some(m)
    requires i < |m.rows| && i in m.log
    ensures Settled(m, Play(START, moves, cap).value, i)
    decreases |moves|
  {
    if n < |moves| {
      var before := moves[..|moves| - 1];
      assert before[..n] == moves[..n];
      StaysSettled(m, before, n, i, cap);
      SettledNext(m, moves, i, cap);
    } else {
      assert moves[..n] == moves;
    }
  }

  /** Once a run is executed, exactly the jobs its execution started have left
      the queue; a job inserted later, or never started, is queued ever after. */
  lemma JobsStayQueued(moves: seq<Move>, n: nat, i: nat, k: nat, cap: nat)
    requires Play(START, moves, cap).Some? && n <= |moves| && Play(START, moves[..n], cap).Some?
    requires var m := Play(START, moves[..n], cap).value; i < |m.rows| && i in m.log
    requires i < |Play(START, moves, cap).value.rows| && k < |Play(START, moves, cap).value.rows[i].run.jobs|
    ensures Play(START, moves, cap).value.rows[i].run.jobs[k].status == JobQueued
       <==> k >= Play(START, moves[..n], cap).value.rows[i].ran
  {
    StaysSettled(Play(START, moves[..n], cap).value, moves, n, i, cap);
    PlayKeeps(moves, cap);
    var m := Play(START, moves, cap).value;
    assert RowOk(m.rows[i], i in m.log);
  }

  /** The execution and the skip both wrote the status. */
  predicate WrittenTwice(m: Machine, i: nat)
    requires i < |m.rows|
  {
    i in m.log && Empty(m.rows[i])
  }

  /** The run had ended with another status before. */
  ghost predicate Overwritten(moves: seq<Move>, cap: nat, i: nat, now: RunStatus) {
    exists n :: EndedOtherwise(moves, n, cap, i, now)
  }

  ghost predicate EndedOtherwise(moves: seq<Move>, n: nat, cap: nat, i: nat, now: RunStatus) {
    n <= |moves| && match Play(START, moves[..n], cap)
    case None => false
    case Some(m) => i < |m.rows| && m.rows[i].run.status != Queued && m.rows[i].run.status != now
  }

  /** How a row's status may go from one state to the next. */
  predicate StatusStep(m: Machine, n: Machine, i: nat)
    requires i < |m.rows|
  {
    var was := m.rows[i].run.status;
    && i < |n.rows|
    && (was != Queued ==> n.rows[i].run.status != Queued)
    && (if n.rows[i].run.status == was then WrittenTwice(n, i) == WrittenTwice(m, i)
        else WrittenTwice(n, i) == (was != Queued))
  }

  lemma RowMoveStatus(m: Machine, n: Machine, i: nat)
    requires i < |m.rows| && |n.rows| >= |m.rows| && n.log == m.log && n.rows[i] == m.rows[i]
    ensures StatusStep(m, n, i)
  {
  }

  lemma FinishStatus(m: Machine, i: nat, cap: nat)
    requires Inv(m) && Enabled(m, Finish(i))
    ensures StatusStep(m, Apply(m, Finish(i), cap), i)
  {
    assert RowOk(m.rows[i], i in m.log);
  }

  lemma ExecuteStatus(m: Machine, w: World, i: nat, cap: nat)
    requires Inv(m) && Enabled(m, Execute(w)) && i < |m.rows|
    ensures StatusStep(m, Apply(m, Execute(w), cap), i)
  {
    var head := m.scheduler.pending[0];
    assert head in Held(m);
    InHandNotExecuted(m, head);
    assert RowOk(m.rows[head], head in m.log);
    ExecutedRowOk(m.rows[head], m.scheduler.listed.value, w);
  }

  /** What one move does to the status of a row. */
  lemma MoveStatus(m: Machine, move: Move, i: nat, cap: nat)
    requires Inv(m) && Enabled(m, move) && i < |m.rows|
    ensures StatusStep(m, Apply(m, move, cap), i)
  {
    match move
    case Execute(w) => ExecuteStatus(m, w, i, cap);
    case Finish(k) => if k == i { FinishStatus(m, i, cap); } else { RowMoveStatus(m, Apply(m, move, cap), i); }
    case AddJob(k) =>
    case Insert(_, _) =>
    case ReadPending =>
    case ListJobs =>
  }

  ghost predicate EndedBy(moves: seq<Move>, n: nat, i: nat, cap: nat) {
    n <= |moves| && match Play(START, moves[..n], cap)
    case None => false
    case Some(m) => i < |m.rows| && m.rows[i].run.status != Queued
  }

  lemma EndedByNext(moves: seq<Move>, i: nat, cap: nat)
    requires moves != [] && Play(START, moves, cap).Some? && EndedBy(moves, |moves| - 1, i, cap)
    ensures EndedBy(moves, |moves|, i, cap)
  {
    var before := moves[..|moves| - 1];
    PlayKeeps(before, cap);
    MoveStatus(Play(START, before, cap).value, moves[|moves| - 1], i, cap);
    assert moves[..|moves|] == moves;
  }

  lemma {:induction false} EndedStays(moves: seq<Move>, n: nat, i: nat, cap: nat)
    requires Play(START, moves, cap).Some? && EndedBy(moves, n, i, cap)
    ensures EndedBy(moves, |moves|, i, cap)
    decreases |moves|
  {
    if n < |moves| {
      var last := |moves| - 1;
      var before := moves[..last];
      assert before[..n] == moves[..n];
      EndedStays(before, n, i, cap);
      assert before[..last] == before;
      EndedByNext(moves, i, cap);
    }
  }

  /** The history before the last move matters, and the last state does not differ from itself. */
  lemma OverwrittenBefore(moves: seq<Move>, cap: nat, i: nat, now: RunStatus)
    requires moves != [] && Play(START, moves, cap).Some?
    requires var m := Play(START, moves, cap).value; i < |m.rows| && m.rows[i].run.status == now
    ensures Overwritten(moves, cap, i, now) <==> Overwritten(moves[..|moves| - 1], cap, i, now)
  {
    var last := |moves| - 1;
    forall n: nat | n <= last
      ensures EndedOtherwise(moves, n, cap, i, now) <==> EndedOtherwise(moves[..last], n, cap, i, now)
    {
      SamePrefix(moves, n, cap, i, now);
    }
    assert !EndedOtherwise(moves, |moves|, cap, i, now) by { assert moves[..|moves|] == moves; }
  }

  lemma SamePrefix(moves: seq<Move>, n: nat, cap: nat, i: nat, now: RunStatus)
    requires n < |moves|
    ensures EndedOtherwise(moves, n, cap, i, now) <==> EndedOtherwise(moves[..|moves| - 1], n, cap, i, now)
  {
    assert moves[..|moves| - 1][..n] == moves[..n];
  }

  lemma NeverEnded(moves: seq<Move>, i: nat, cap: nat, now: RunStatus)
    requires Play(START, moves, cap).Some? && !EndedBy(moves, |moves|, i, cap)
    ensures !Overwritten(moves, cap, i, now)
  {
    forall n: nat
      ensures !EndedOtherwise(moves, n, cap, i, now)
    {
      if EndedOtherwise(moves, n, cap, i, now) {
        assert EndedBy(moves, n, i, cap);
        EndedStays(moves, n, i, cap);
      }
    }
  }

  /** A run changes its status after it has ended exactly when it was executed
      and its enqueue returned without a job: then the execution and the skip both
      wrote it, in either order. */
  lemma {:induction false} ChangedExactly(moves: seq<Move>, i: nat, cap: nat)
    requires Play(START, moves, cap).Some? && i < |Play(START, moves, cap).value.rows|
    ensures var m := Play(START, moves, cap).value;
      Overwritten(moves, cap, i, m.rows[i].run.status) <==> WrittenTwice(m, i)
    decreases |moves|
  {
    var m := Play(START, moves, cap).value;
    var now := m.rows[i].run.status;
    var last := |moves| - 1;
    var before := moves[..last];
    var p := Play(START, before, cap).value;
    OverwrittenBefore(moves, cap, i, now);
    PlayKeeps(before, cap);
    if i < |p.rows| {
      MoveStatus(p, moves[last], i, cap);
      var was := p.rows[i].run.status;
      assert before[..last] == before;
      if was == now {
        ChangedExactly(before, i, cap);
      } else if was != Queued {
        assert EndedOtherwise(before, last, cap, i, now);
      } else {
        NeverEnded(before, i, cap, now);
      }
    } else {
      NewRow(moves, i, cap);
    }
  }

  lemma NewNotExecuted(p: Machine, move: Move, i: nat, cap: nat)
    requires Inv(p) && Enabled(p, move) && |p.rows| <= i < |Apply(p, move, cap).rows|
    ensures !WrittenTwice(Apply(p, move, cap), i)
  {
    assert move.Insert?;
    assert forall x :: x in p.log ==> x in p.log + Held(p);
  }

  lemma NotThereNotEnded(moves: seq<Move>, i: nat, cap: nat)
    requires Play(START, moves, cap).Some? && i >= |Play(START, moves, cap).value.rows|
    ensures !EndedBy(moves, |moves|, i, cap)
  {
    assert moves[..|moves|] == moves;
  }

  /** A row just inserted was not there before, and is not executed. */
  lemma NewRow(moves: seq<Move>, i: nat, cap: nat)
    requires moves != [] && Play(START, moves, cap).Some? && i < |Play(START, moves, cap).value.rows|
    requires i >= |Play(START, moves[..|moves| - 1], cap).value.rows|
    ensures var m := Play(START, moves, cap).value;
      !Overwritten(moves[..|moves| - 1], cap, i, m.rows[i].run.status) && !WrittenTwice(m, i)
  {
    var before := moves[..|moves| - 1];
    PlayKeeps(before, cap);
    NewNotExecuted(Play(START, before, cap).value, moves[|moves| - 1], i, cap);
    NotThereNotEnded(before, i, cap);
    NeverEnded(before, i, cap, Play(START, moves, cap).value.rows[i].run.status);
  }

  /** A run with a runnable step keeps the status it ends with. */
  lemma FinalWithJobs(moves: seq<Move>, i: nat, cap: nat)
    requires Play(START, moves, cap).Some? && i < |Play(START, moves, cap).value.rows|
    requires Play(START, moves, cap).value.rows[i].run.jobs != []
    ensures !Overwritten(moves, cap, i, Play(START, moves, cap).value.rows[i].run.status)
  {
    ChangedExactly(moves, i, cap);
  }

  // ---- undisturbed, the moves are the queue's events ------------------------------

  lemma PlaySnoc(m: Machine, moves: seq<Move>, n: Machine, move: Move, cap: nat)
    requires Play(m, moves, cap) == Some(n) && Enabled(n, move)
    ensures Play(m, moves + [move], cap) == Some(Apply(n, move, cap))
  {
    assert (moves + [move])[..|moves|] == moves;
  }

  /** An enqueue that has inserted `k` of its jobs. */
  function Enqueueing(m: Machine, repoId: string, jobs: seq<Job>, k: nat): Machine
    requires k <= |jobs|
  {
    m.(rows := m.rows + [Row(Run(|m.rows|, repoId, jobs[..k], Queued), Some(jobs[k..]), 0)])
  }

  function EnqueueMoves(i: nat, repoId: string, wf: seq<WorkflowJob>, k: nat): seq<Move> {
    if k == 0 then [Insert(repoId, wf)] else EnqueueMoves(i, repoId, wf, k - 1) + [AddJob(i)]
  }

  lemma {:induction false} EnqueueJobs(m: Machine, repoId: string, wf: seq<WorkflowJob>, k: nat, cap: nat)
    requires k <= |JobsOf(wf)|
    ensures Play(m, EnqueueMoves(|m.rows|, repoId, wf, k), cap) == Some(Enqueueing(m, repoId, JobsOf(wf), k))
  {
    var jobs, i := JobsOf(wf), |m.rows|;
    if k == 0 {
      assert jobs[..0] == [] && jobs[0..] == jobs;
      assert [Insert(repoId, wf)][..0] == [];
    } else {
      EnqueueJobs(m, repoId, wf, k - 1, cap);
      JobAdded(m, repoId, jobs, k, cap);
      PlaySnoc(m, EnqueueMoves(i, repoId, wf, k - 1), Enqueueing(m, repoId, jobs, k - 1), AddJob(i), cap);
    }
  }

  lemma JobAdded(m: Machine, repoId: string, jobs: seq<Job>, k: nat, cap: nat)
    requires 0 < k <= |jobs|
    ensures var before := Enqueueing(m, repoId, jobs, k - 1);
      Enabled(before, AddJob(|m.rows|)) && Apply(before, AddJob(|m.rows|), cap) == Enqueueing(m, repoId, jobs, k)
  {
    var before, i := Enqueueing(m, repoId, jobs, k - 1), |m.rows|;
    assert jobs[k - 1..][0] == jobs[k - 1] && jobs[k - 1..][1..] == jobs[k..];
    assert jobs[..k - 1] + [jobs[k - 1]] == jobs[..k];
    assert Apply(before, AddJob(i), cap).rows == Enqueueing(m, repoId, jobs, k).rows;
  }

  /** An enqueue with nothing in between is the queue's enqueue event. */
  lemma EnqueueAlone(m: Machine, repoId: string, wf: seq<WorkflowJob>, cap: nat)
    ensures var moves := EnqueueMoves(|m.rows|, repoId, wf, |JobsOf(wf)|) + [Finish(|m.rows|)];
      && Play(m, moves, cap).Some?
      && Table(Play(m, moves, cap).value.rows) == Enqueued(State(Table(m.rows), |m.rows|), repoId, wf).runs
  {
    var jobs, i := JobsOf(wf), |m.rows|;
    EnqueueJobs(m, repoId, wf, |jobs|, cap);
    var before := Enqueueing(m, repoId, jobs, |jobs|);
    assert jobs[..|jobs|] == jobs && jobs[|jobs|..] == [];
    PlaySnoc(m, EnqueueMoves(i, repoId, wf, |jobs|), before, Finish(i), cap);
    var after := Apply(before, Finish(i), cap);
    assert Table(after.rows) == Enqueued(State(Table(m.rows), i), repoId, wf).runs;
  }

  /** A tick that has executed `k` of the runs it read. */
  ghost predicate Ticking(m: Machine, n: Machine, pending: seq<nat>, k: nat, world: nat -> World) {
    && k <= |pending|
    && n.scheduler == (if k == |pending| then Idle else Busy(pending[k..], None))
    && Table(n.rows) == Ticked(Table(m.rows), k, world)
    && n.log == m.log + pending[..k]
  }

  function TickMoves(pending: seq<nat>, k: nat, world: nat -> World): seq<Move>
    requires k <= |pending|
  {
    if k == 0 then [ReadPending] else TickMoves(pending, k - 1, world) + [ListJobs] + [Execute(world(pending[k - 1]))]
  }

  lemma ExecuteWhole(row: Row, w: World)
    ensures ExecutedRow(row, |row.run.jobs|, w).run == Executed(row.run, w)
  {
    var jobs := row.run.jobs;
    assert jobs[..|jobs|] == jobs && jobs[|jobs|..] == [];
    assert row.run.(jobs := jobs) == row.run;
    assert Executed(row.run, w).jobs + [] == Executed(row.run, w).jobs;
  }

  lemma TickOne(m: Machine, n: Machine, pending: seq<nat>, k: nat, world: nat -> World, cap: nat)
    requires Inv(m) && pending == FirstQueued(m.rows, cap) && k < |pending| && Ticking(m, n, pending, k, world)
    ensures Enabled(n, ListJobs)
    ensures var listed := Apply(n, ListJobs, cap);
      Enabled(listed, Execute(world(pending[k]))) && Ticking(m, Apply(listed, Execute(world(pending[k])), cap), pending, k + 1, world)
  {
    var runs, i := Table(m.rows), pending[k];
    PendingAt(runs, k);
    assert runs[i].id == i;
    TickedNext(runs, k, world, i);
    var listed := Apply(n, ListJobs, cap);
    var after := Apply(listed, Execute(world(i)), cap);
    assert pending[k..][0] == i && pending[k..][1..] == pending[k + 1..];
    assert n.rows[i].run == Table(n.rows)[i];
    ExecuteWhole(n.rows[i], world(i));
    assert Table(after.rows) == Table(n.rows)[i := Executed(runs[i], world(i))];
    assert pending[..k] + [i] == pending[..k + 1];
    assert (m.log + pending[..k]) + [i] == m.log + pending[..k + 1];
  }

  lemma TickStart(m: Machine, pending: seq<nat>, world: nat -> World, cap: nat)
    requires m.scheduler.Idle? && pending == FirstQueued(m.rows, cap)
    ensures Play(m, [ReadPending], cap).Some? && Ticking(m, Play(m, [ReadPending], cap).value, pending, 0, world)
  {
    TickedNone(Table(m.rows), world);
    assert pending[0..] == pending && m.log + pending[..0] == m.log;
    PlaySnoc(m, [], m, ReadPending, cap);
    assert [] + [ReadPending] == [ReadPending];
  }

  lemma {:induction false} TickSome(m: Machine, pending: seq<nat>, k: nat, world: nat -> World, cap: nat)
    requires Inv(m) && m.scheduler.Idle? && pending == FirstQueued(m.rows, cap) && k <= |pending|
    ensures Play(m, TickMoves(pending, k, world), cap).Some?
    ensures Ticking(m, Play(m, TickMoves(pending, k, world), cap).value, pending, k, world)
  {
    if k == 0 {
      TickStart(m, pending, world, cap);
    } else {
      TickSome(m, pending, k - 1, world, cap);
      var moves := TickMoves(pending, k - 1, world);
      var n := Play(m, moves, cap).value;
      TickOne(m, n, pending, k - 1, world, cap);
      PlaySnoc(m, moves, n, ListJobs, cap);
      PlaySnoc(m, moves + [ListJobs], Apply(n, ListJobs, cap), Execute(world(pending[k - 1])), cap);
    }
  }

  /** A tick with nothing in between is the queue's tick event. */
  lemma TickAlone(m: Machine, world: nat -> World, cap: nat)
    requires Inv(m) && m.scheduler.Idle?
    ensures var pending := FirstQueued(m.rows, cap);
      var moves := TickMoves(pending, |pending|, world);
      && Play(m, moves, cap).Some?
      && Play(m, moves, cap).value.scheduler.Idle?
      && Table(Play(m, moves, cap).value.rows) == Ticked(Table(m.rows), cap, world)
  {
    var pending, runs := FirstQueued(m.rows, cap), Table(m.rows);
    TickSome(m, pending, |pending|, world, cap);
    PendingAt(runs, 0);
    if |Pending(runs)| <= cap { TickedEnough(runs, |pending|, cap, world); }
  }

  /** A row with no job to come, as its enqueue leaves it after the insert. */
  function Bare(status: RunStatus, left: Option<seq<Job>>): Row {
    Row(Run(0, "o/r", [], status), left, 0)
  }

  lemma ReadBare()
    ensures FirstQueued([Bare(Queued, Some([]))], 1) == [0]
  {
    var rows := [Bare(Queued, Some([]))];
    var runs := Table(rows);
    assert runs[..0] == [];
    assert Pending(runs) == [] + [0];
  }

  lemma ExecuteBare(row: Row, w: World)
    requires w.contextOk && row.run.repoId == "o/r" && row.run.jobs == []
    ensures ExecutedRow(row, 0, w) == row.(run := row.run.(status := Success), ran := 0)
  {
    assert "o/r"[1] == '/';
    var short := row.run.(jobs := row.run.jobs[..0]);
    SuccessIffJobsSucceed(short, w);
    assert Executed(short, w).jobs == [];
  }

  /** Insert, read and list: a run with no runnable step in the scheduler's hands. */
  lemma ListedBare(moves: seq<Move>)
    requires moves == [Insert("o/r", [])] + [ReadPending] + [ListJobs]
    ensures Play(START, moves, 1) == Some(Machine([Bare(Queued, Some([]))], Busy([0], Some(0)), []))
  {
    var one := Machine([Bare(Queued, Some([]))], Idle, []);
    PlaySnoc(START, [], START, Insert("o/r", []), 1);
    assert [] + [Insert("o/r", [])] == [Insert("o/r", [])];
    assert Apply(START, Insert("o/r", []), 1) == one;
    ReadBare();
    PlaySnoc(START, [Insert("o/r", [])], one, ReadPending, 1);
    var two := Machine(one.rows, Busy([0], None), []);
    PlaySnoc(START, [Insert("o/r", [])] + [ReadPending], two, ListJobs, 1);
  }

  lemma ExecuteLone(row: Row, w: World)
    requires w.contextOk && row.run.repoId == "o/r" && row.run.jobs == []
    ensures var m := Machine([row], Busy([0], Some(0)), []);
      Enabled(m, Execute(w)) && Apply(m, Execute(w), 1) == Machine([row.(run := row.run.(status := Success), ran := 0)], Idle, [0])
  {
    ExecuteBare(row, w);
    assert [0][1..] == [] && [] + [0] == [0];
    assert [row][0 := ExecutedRow(row, 0, w)] == [ExecutedRow(row, 0, w)];
  }

  lemma FinishLone(status: RunStatus, scheduler: Scheduler, log: seq<nat>)
    ensures var m := Machine([Bare(status, Some([]))], scheduler, log);
      Enabled(m, Finish(0)) && Apply(m, Finish(0), 1) == Machine([Bare(Skipped, None)], scheduler, log)
  {
    var row := Bare(status, Some([]));
    assert [row][0 := FinishedRow(row)] == [Bare(Skipped, None)];
  }

  /** A run can be skipped after it has succeeded. */
  lemma SkippedAfterSuccess(w: World, listed: seq<Move>)
    requires w.contextOk && listed == [Insert("o/r", [])] + [ReadPending] + [ListJobs]
    ensures Play(START, listed + [Execute(w)] + [Finish(0)], 1) == Some(Machine([Bare(Skipped, None)], Idle, [0]))
  {
    ListedBare(listed);
    var row := Bare(Queued, Some([]));
    ExecuteLone(row, w);
    PlaySnoc(START, listed, Machine([row], Busy([0], Some(0)), []), Execute(w), 1);
    FinishLone(Success, Idle, [0]);
    PlaySnoc(START, listed + [Execute(w)], Machine([Bare(Success, Some([]))], Idle, [0]), Finish(0), 1);
  }

  /** And one that was skipped can succeed after all. */
  lemma SuccessAfterSkipped(w: World, listed: seq<Move>)
    requires w.contextOk && listed == [Insert("o/r", [])] + [ReadPending] + [ListJobs]
    ensures Play(START, listed + [Finish(0)] + [Execute(w)], 1) == Some(Machine([Bare(Success, None)], Idle, [0]))
  {
    ListedBare(listed);
    var sched := Busy([0], Some(0));
    FinishLone(Queued, sched, []);
    PlaySnoc(START, listed, Machine([Bare(Queued, Some([]))], sched, []), Finish(0), 1);
    ExecuteLone(Bare(Skipped, None), w);
    PlaySnoc(START, listed + [Finish(0)], Machine([Bare(Skipped, None)], sched, []), Execute(w), 1);
  }
}
