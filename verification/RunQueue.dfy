/** The CI run queue: enqueueing a workflow's runnable steps, the capped tick
    that executes queued runs in id order, and job completion in any order. */
module RunQueue {
  import opened Common

  datatype JobStatus = JobQueued | JobRunning | JobSuccess | JobFailure
  datatype RunStatus = Queued | Success | Failure | Skipped

  datatype Job = Job(name: string, status: JobStatus)
  datatype Run = Run(id: nat, repoId: string, jobs: seq<Job>, status: RunStatus)

  // ---- enqueueing ---------------------------------------------------------

  /** A step runs when it has a command or a build spec. */
  datatype Step = Step(name: Option<string>, runnable: bool)

  /** A workflow job; an entry whose key or body cannot be read is passed over. */
  datatype WorkflowJob = WorkflowJob(key: string, steps: Option<seq<Step>>)

  function Label(key: string, step: Step, index: nat): string {
    match step.name
    case Some(name) => name
    case None => key + ":" + Decimal(index + 1)
  }

  /** One queued job per runnable step; indices count every step. */
  function StepJobs(key: string, steps: seq<Step>): seq<Job>
    decreases |steps|
  {
    if steps == [] then []
    else
      var last := |steps| - 1;
      StepJobs(key, steps[..last])
      + (if steps[last].runnable then [Job(Label(key, steps[last], last), JobQueued)] else [])
  }

  function JobsOf(wf: seq<WorkflowJob>): seq<Job>
    decreases |wf|
  {
    if wf == [] then []
    else
      var last := wf[|wf| - 1];
      JobsOf(wf[..|wf| - 1]) + (if last.steps.Some? then StepJobs(last.key, last.steps.value) else [])
  }

  /** Where the job of a step stands: after those of the runnable steps before it. */
  ghost function Slot(steps: seq<Step>, k: nat): nat
    requires k <= |steps|
  {
    |Positions(steps[..k], Runnable())|
  }

  function Runnable(): Step -> bool { (s: Step) => s.runnable }

  /** One queued job for each step with a command or a build, in step order and
      no others; an unnamed one is called after the job's key and the step's
      number, counted from one over all steps. */
  lemma StepJobsExact(key: string, steps: seq<Step>)
    ensures |StepJobs(key, steps)| == Slot(steps, |steps|)
    ensures forall k :: 0 <= k < |steps| && steps[k].runnable ==>
      && Slot(steps, k) < |StepJobs(key, steps)|
      && StepJobs(key, steps)[Slot(steps, k)].status == JobQueued
      && StepJobs(key, steps)[Slot(steps, k)].name ==
           (if steps[k].name.Some? then steps[k].name.value else key + ":" + Decimal(k + 1))
  {
    StepJobsAt(key, steps);
  }

  lemma {:induction false} StepJobsAt(key: string, steps: seq<Step>)
    ensures |StepJobs(key, steps)| == Slot(steps, |steps|)
    ensures forall k :: 0 <= k < |steps| && steps[k].runnable ==>
      Slot(steps, k) < |StepJobs(key, steps)| && StepJobs(key, steps)[Slot(steps, k)] == Job(Label(key, steps[k], k), JobQueued)
    decreases |steps|
  {
    assert steps[..|steps|] == steps;
    if steps == [] {
      assert Positions(steps, Runnable()) == {};
    } else {
      var last := |steps| - 1;
      var front := steps[..last];
      StepJobsAt(key, front);
      assert front[..last] == front;
      PositionsSnoc(front, steps[last], Runnable());
      assert front + [steps[last]] == steps;
      forall k | 0 <= k < |steps| && steps[k].runnable
        ensures Slot(steps, k) < |StepJobs(key, steps)|
        ensures StepJobs(key, steps)[Slot(steps, k)] == Job(Label(key, steps[k], k), JobQueued)
      {
        assert steps[..k] == front[..k];
        if k < last { assert front[k] == steps[k] && Slot(front, k) == Slot(steps, k); }
      }
    }
  }

  /** The workflow's readable jobs one after the other. */
  lemma {:induction false} JobsOfConcat(a: seq<WorkflowJob>, b: seq<WorkflowJob>)
    ensures JobsOf(a + b) == JobsOf(a) + JobsOf(b)
    decreases |b|
  {
    if b == [] {
      assert a + b == a && JobsOf(a) + [] == JobsOf(a);
    } else {
      var last := |b| - 1;
      JobsOfConcat(a, b[..last]);
      assert (a + b)[..|a + b| - 1] == a + b[..last];
    }
  }

  lemma JobsOfOne(job: WorkflowJob)
    ensures JobsOf([job]) == if job.steps.Some? then StepJobs(job.key, job.steps.value) else []
  {
    assert [job][..0] == [];
  }

  // ---- executing a run ----------------------------------------------------

  /** How a job's task ends: a pod or build result, an error, or a panic. */
  datatype Outcome = Ended(phase: string, code: Option<int>) | Errored | Panicked

  predicate Passed(o: Outcome) {
    o.Ended? && (o.phase == "Succeeded" || o.code == Some(0))
  }

  predicate Failed(o: Outcome) { !Passed(o) && !o.Panicked? }

  /** What a run meets when executed: whether its context directory can be
      created, and how each of its jobs ends. */
  datatype World = World(contextOk: bool, outcomes: nat -> Outcome)

  function JobAfter(job: Job, o: Outcome): Job {
    job.(status := if Passed(o) then JobSuccess else if o.Panicked? then JobRunning else JobFailure)
  }

  predicate Starts(run: Run, w: World) { '/' in run.repoId && w.contextOk }

  function Executed(run: Run, w: World): Run {
    if !Starts(run, w) then run.(status := Failure)
    else run.(
      jobs := seq(|run.jobs|, i requires 0 <= i < |run.jobs| => JobAfter(run.jobs[i], w.outcomes(i))),
      status := if exists i :: 0 <= i < |run.jobs| && Failed(w.outcomes(i)) then Failure else Success)
  }

  /** Once its tree can be laid out, a run succeeds exactly when no job fails;
      with no panicking task, exactly when every job ends in success. */
  lemma SuccessIffJobsSucceed(run: Run, w: World)
    ensures Executed(run, w).status == Success <==> Starts(run, w) && forall i :: 0 <= i < |run.jobs| ==> !Failed(w.outcomes(i))
    ensures Starts(run, w) && (forall i :: 0 <= i < |run.jobs| ==> !w.outcomes(i).Panicked?) ==>
      (Executed(run, w).status == Success <==> forall j :: j in Executed(run, w).jobs ==> j.status == JobSuccess)
    ensures Executed(run, w).status in {Success, Failure}
  {
    var after := Executed(run, w);
    if Starts(run, w) && forall i :: 0 <= i < |run.jobs| ==> !w.outcomes(i).Panicked? {
      forall i | 0 <= i < |run.jobs|
        ensures after.jobs[i] in after.jobs && (after.jobs[i].status == JobSuccess <==> !Failed(w.outcomes(i)))
      {
      }
    }
  }

  /** What is left of each job: success when its pod or build succeeded or exited
      with 0, failure when it ended otherwise, and still running when its task
      panicked. A run that cannot start leaves its jobs alone. */
  lemma JobsAfter(run: Run, w: World, i: nat)
    requires i < |run.jobs|
    ensures var after := Executed(run, w);
      && |after.jobs| == |run.jobs| && after.jobs[i].name == run.jobs[i].name
      && ('/' !in run.repoId || !w.contextOk ==> after.jobs[i] == run.jobs[i] && after.status == Failure)
      && ('/' in run.repoId && w.contextOk ==>
            match w.outcomes(i)
            case Ended(phase, code) =>
              after.jobs[i].status == (if phase == "Succeeded" || code == Some(0) then JobSuccess else JobFailure)
            case Errored => after.jobs[i].status == JobFailure && after.status == Failure
            case Panicked => after.jobs[i].status == JobRunning)
  {
  }

  // ---- the queue ----------------------------------------------------------

  datatype State = State(runs: seq<Run>, nextId: nat)

  ghost predicate Ascending(s: State) {
    && (forall i, j :: 0 <= i < j < |s.runs| ==> s.runs[i].id < s.runs[j].id)
    && (forall i :: 0 <= i < |s.runs| ==> s.runs[i].id < s.nextId)
  }

  function Enqueued(s: State, repoId: string, wf: seq<WorkflowJob>): State {
    var jobs := JobsOf(wf);
    State(s.runs + [Run(s.nextId, repoId, jobs, if jobs == [] then Skipped else Queued)], s.nextId + 1)
  }

  /** The first `budget` queued runs are executed, the others left. */
  function Ticked(runs: seq<Run>, budget: nat, world: nat -> World): seq<Run> {
    if runs == [] then []
    else if runs[0].status == Queued && budget > 0 then [Executed(runs[0], world(runs[0].id))] + Ticked(runs[1..], budget - 1, world)
    else [runs[0]] + Ticked(runs[1..], budget, world)
  }

  /** The ids executed, in execution order. */
  function Taken(runs: seq<Run>, budget: nat): seq<nat> {
    if runs == [] then []
    else if runs[0].status == Queued && budget > 0 then [runs[0].id] + Taken(runs[1..], budget - 1)
    else Taken(runs[1..], budget)
  }

  /** A history event; `world` says how the runs of a tick fare. A tick without
      a cluster connection does nothing. */
  datatype Event = Enqueue(repoId: string, wf: seq<WorkflowJob>) | Tick(world: nat -> World) | TickOffline

  function After(s: State, e: Event, cap: nat): State {
    match e
    case Enqueue(repoId, wf) => Enqueued(s, repoId, wf)
    case Tick(world) => s.(runs := Ticked(s.runs, cap, world))
    case TickOffline => s
  }

  function Replay(s: State, history: seq<Event>, cap: nat): State
    decreases |history|
  {
    if history == [] then s else Replay(After(s, history[0], cap), history[1..], cap)
  }

  /** Everything executed over a history, in order. */
  function Log(s: State, history: seq<Event>, cap: nat): seq<nat>
    decreases |history|
  {
    if history == [] then []
    else (if history[0].Tick? then Taken(s.runs, cap) else []) + Log(After(s, history[0], cap), history[1..], cap)
  }

  function Ticks(history: seq<Event>): nat
    decreases |history|
  {
    if history == [] then 0 else (if history[0].Tick? then 1 else 0) + Ticks(history[1..])
  }

  function QueuedCount(runs: seq<Run>): nat {
    if runs == [] then 0 else (if runs[0].status == Queued then 1 else 0) + QueuedCount(runs[1..])
  }

  function IsQueued(): Run -> bool { (r: Run) => r.status == Queued }
  function IsTick(): Event -> bool { (e: Event) => e.Tick? }

  /** The counts are sizes of sets. */
  lemma {:induction false} QueuedCountIsSize(runs: seq<Run>)
    ensures QueuedCount(runs) == |Positions(runs, IsQueued())|
  {
    if runs == [] {
      assert Positions(runs, IsQueued()) == {};
    } else {
      QueuedCountIsSize(runs[1..]);
      PositionsCons(runs[0], runs[1..], IsQueued());
      assert [runs[0]] + runs[1..] == runs;
    }
  }

  lemma {:induction false} TicksIsSize(history: seq<Event>)
    ensures Ticks(history) == |Positions(history, IsTick())|
    decreases |history|
  {
    if history == [] {
      assert Positions(history, IsTick()) == {};
    } else {
      TicksIsSize(history[1..]);
      PositionsCons(history[0], history[1..], IsTick());
      assert [history[0]] + history[1..] == history;
    }
  }

  lemma {:induction false} TickedShape(runs: seq<Run>, budget: nat, world: nat -> World)
    ensures |Ticked(runs, budget, world)| == |runs|
    ensures forall i :: 0 <= i < |runs| ==> Ticked(runs, budget, world)[i].id == runs[i].id
  {
    if runs != [] {
      TickedShape(runs[1..], if runs[0].status == Queued && budget > 0 then budget - 1 else budget, world);
    }
  }

  /** A run is executed by a tick exactly when fewer than `budget` are queued
      before it; every other row keeps its contents. */
  lemma {:induction false} TickedAt(runs: seq<Run>, budget: nat, world: nat -> World, i: nat)
    requires i < |runs|
    ensures |Ticked(runs, budget, world)| == |runs|
    ensures Ticked(runs, budget, world)[i] ==
      if runs[i].status == Queued && QueuedCount(runs[..i]) < budget then Executed(runs[i], world(runs[i].id)) else runs[i]
  {
    var rest := if runs[0].status == Queued && budget > 0 then budget - 1 else budget;
    TickedShape(runs, budget, world);
    if i > 0 {
      TickedAt(runs[1..], rest, world, i - 1);
      assert runs[..i][1..] == runs[1..][..i - 1];
    }
  }

  /** A tick takes `budget` runs off the front of the queue. */
  lemma {:induction false} TickedCount(runs: seq<Run>, budget: nat, world: nat -> World)
    ensures QueuedCount(Ticked(runs, budget, world)) == if QueuedCount(runs) <= budget then 0 else QueuedCount(runs) - budget
  {
    if runs != [] {
      if runs[0].status == Queued && budget > 0 {
        TickedCount(runs[1..], budget - 1, world);
        assert Ticked(runs, budget, world)[1..] == Ticked(runs[1..], budget - 1, world);
      } else {
        TickedCount(runs[1..], budget, world);
        assert Ticked(runs, budget, world)[1..] == Ticked(runs[1..], budget, world);
      }
    }
  }

  lemma {:induction false} TickedPrefix(runs: seq<Run>, budget: nat, world: nat -> World, i: nat)
    requires i <= |runs|
    ensures |Ticked(runs, budget, world)| == |runs|
    ensures Ticked(runs, budget, world)[..i] == Ticked(runs[..i], budget, world)
  {
    TickedShape(runs, budget, world);
    if i > 0 {
      var rest := if runs[0].status == Queued && budget > 0 then budget - 1 else budget;
      TickedPrefix(runs[1..], rest, world, i - 1);
      assert runs[..i][1..] == runs[1..][..i - 1];
    }
  }

  lemma AfterAscending(s: State, e: Event, cap: nat)
    requires Ascending(s)
    ensures Ascending(After(s, e, cap))
  {
    if e.Tick? { TickedShape(s.runs, cap, e.world); }
  }

  // ---- latency ------------------------------------------------------------

  /** The position of a run never changes, and neither does anything but a tick
      change how many runs are queued before it. */
  lemma {:induction false} StaysAt(s: State, history: seq<Event>, cap: nat, i: nat)
    requires i < |s.runs|
    ensures i < |Replay(s, history, cap).runs| && Replay(s, history, cap).runs[i].id == s.runs[i].id
    decreases |history|
  {
    if history != [] {
      if history[0].Tick? { TickedShape(s.runs, cap, history[0].world); }
      StaysAt(After(s, history[0], cap), history[1..], cap, i);
    }
  }

  /** A queued run with k runs queued ahead of it is still queued after t ticks
      exactly when t * cap <= k, that is until tick number k / cap + 1, however
      many newer runs arrive meanwhile. */
  lemma {:induction false} LatencyExact(s: State, history: seq<Event>, cap: nat, i: nat)
    requires cap >= 1 && i < |s.runs| && s.runs[i].status == Queued
    ensures i < |Replay(s, history, cap).runs|
    ensures Replay(s, history, cap).runs[i].status == Queued <==> Ticks(history) * cap <= QueuedCount(s.runs[..i])
    decreases |history|, 0
  {
    StaysAt(s, history, cap, i);
    if history != [] {
      var e, rest := history[0], history[1..];
      var next := After(s, e, cap);
      if e.Tick? {
        LatencyTick(s, e, rest, cap, i);
      } else {
        assert next.runs[..i] == s.runs[..i];
        LatencyExact(next, rest, cap, i);
      }
    }
  }

  lemma {:induction false} LatencyTick(s: State, e: Event, rest: seq<Event>, cap: nat, i: nat)
    requires cap >= 1 && i < |s.runs| && s.runs[i].status == Queued && e.Tick?
    ensures var next := After(s, e, cap); i < |Replay(next, rest, cap).runs|
    ensures var next := After(s, e, cap);
      Replay(next, rest, cap).runs[i].status == Queued <==> (1 + Ticks(rest)) * cap <= QueuedCount(s.runs[..i])
    decreases |rest|, 1
  {
    var next, k := After(s, e, cap), QueuedCount(s.runs[..i]);
    TickedAt(s.runs, cap, e.world, i);
    TickedPrefix(s.runs, cap, e.world, i);
    TickedCount(s.runs[..i], cap, e.world);
    StaysAt(next, rest, cap, i);
    TimesCap(Ticks(rest), cap);
    if k < cap {
      SuccessIffJobsSucceed(s.runs[i], e.world(s.runs[i].id));
      TerminalStays(next, rest, cap, i);
    } else {
      LatencyExact(next, rest, cap, i);
    }
  }

  lemma TimesCap(t: nat, cap: nat)
    ensures (1 + t) * cap == cap + t * cap && t * cap >= 0
  {
  }

  /** The tick count at which the run has ended, in closed form. */
  lemma LatencyBound(s: State, history: seq<Event>, cap: nat, i: nat)
    requires cap >= 1 && i < |s.runs| && s.runs[i].status == Queued
    ensures i < |Replay(s, history, cap).runs|
    ensures Replay(s, history, cap).runs[i].status != Queued <==> Ticks(history) >= QueuedCount(s.runs[..i]) / cap + 1
  {
    var k, t := QueuedCount(s.runs[..i]), Ticks(history);
    LatencyExact(s, history, cap, i);
    QuotientBound(k, cap, t);
  }

  lemma QuotientBound(k: nat, cap: nat, t: nat)
    requires cap >= 1
    ensures t * cap > k <==> t >= k / cap + 1
  {
    var q := k / cap;
    assert k == q * cap + k % cap && k % cap < cap;
    if t >= q + 1 {
      assert t * cap >= (q + 1) * cap;
    } else {
      assert t * cap <= q * cap;
    }
  }

  // ---- status and order ---------------------------------------------------

  /** A run that has ended, or was skipped, never changes again. */
  lemma {:induction false} TerminalStays(s: State, history: seq<Event>, cap: nat, i: nat)
    requires i < |s.runs| && s.runs[i].status != Queued
    ensures i < |Replay(s, history, cap).runs| && Replay(s, history, cap).runs[i] == s.runs[i]
    decreases |history|
  {
    if history != [] {
      if history[0].Tick? { TickedAt(s.runs, cap, history[0].world, i); }
      TerminalStays(After(s, history[0], cap), history[1..], cap, i);
    }
  }

  /** At most `cap` runs per tick, exactly the first queued ones. */
  lemma {:induction false} TakenCount(runs: seq<Run>, budget: nat)
    ensures |Taken(runs, budget)| == if QueuedCount(runs) <= budget then QueuedCount(runs) else budget
  {
    if runs != [] {
      TakenCount(runs[1..], if runs[0].status == Queued && budget > 0 then budget - 1 else budget);
    }
  }

  predicate StrictlyAscending(ids: seq<nat>) {
    forall i, j :: 0 <= i < j < |ids| ==> ids[i] < ids[j]
  }

  lemma AscendingConcat(a: seq<nat>, b: seq<nat>)
    requires StrictlyAscending(a) && StrictlyAscending(b) && forall x, y :: x in a && y in b ==> x < y
    ensures StrictlyAscending(a + b)
  {
    var c := a + b;
    forall i, j | 0 <= i < j < |c| ensures c[i] < c[j] {
      if i < |a| <= j { assert c[i] in a && c[j] in b; }
    }
  }

  /** Taken ids are ids of queued rows, in ascending order, before all rows
      that stay queued. */
  lemma {:induction false} TakenInOrder(runs: seq<Run>, budget: nat, world: nat -> World)
    requires forall i, j :: 0 <= i < j < |runs| ==> runs[i].id < runs[j].id
    ensures StrictlyAscending(Taken(runs, budget))
    ensures forall x :: x in Taken(runs, budget) ==> exists i :: 0 <= i < |runs| && runs[i].id == x && runs[i].status == Queued
    ensures forall x, r :: x in Taken(runs, budget) && r in Ticked(runs, budget, world) && r.status == Queued ==> x < r.id
  {
    TakenAreQueued(runs, budget);
    if runs != [] {
      var rest := runs[1..];
      if runs[0].status == Queued && budget > 0 {
        TakenInOrder(rest, budget - 1, world);
        SuccessIffJobsSucceed(runs[0], world(runs[0].id));
        LaterIds(runs, budget - 1, world);
        AscendingConcat([runs[0].id], Taken(rest, budget - 1));
      } else if budget == 0 {
        NothingTaken(runs);
      } else {
        TakenInOrder(rest, budget, world);
      }
    }
  }

  lemma {:induction false} TakenAreQueued(runs: seq<Run>, budget: nat)
    ensures forall x :: x in Taken(runs, budget) ==> exists i :: 0 <= i < |runs| && runs[i].id == x && runs[i].status == Queued
  {
    if runs != [] {
      var less := if runs[0].status == Queued && budget > 0 then budget - 1 else budget;
      TakenAreQueued(runs[1..], less);
      forall x | x in Taken(runs, budget)
        ensures exists i :: 0 <= i < |runs| && runs[i].id == x && runs[i].status == Queued
      {
        if x in Taken(runs[1..], less) {
          var i :| 0 <= i < |runs| - 1 && runs[1..][i].id == x && runs[1..][i].status == Queued;
          assert runs[i + 1].id == x;
        }
      }
    }
  }

  /** All ids after the first row's are greater, taken or not. */
  lemma LaterIds(runs: seq<Run>, budget: nat, world: nat -> World)
    requires runs != [] && forall i, j :: 0 <= i < j < |runs| ==> runs[i].id < runs[j].id
    ensures forall r :: r in Ticked(runs[1..], budget, world) ==> runs[0].id < r.id
    ensures forall y :: y in Taken(runs[1..], budget) ==> runs[0].id < y
  {
    var rest := runs[1..];
    TickedShape(rest, budget, world);
    TakenAreQueued(rest, budget);
    forall r | r in Ticked(rest, budget, world)
      ensures runs[0].id < r.id
    {
      var i :| 0 <= i < |rest| && Ticked(rest, budget, world)[i] == r;
      assert r.id == rest[i].id && rest[i] == runs[i + 1];
    }
    forall y | y in Taken(rest, budget) ensures runs[0].id < y {
      var i :| 0 <= i < |rest| && rest[i].id == y && rest[i].status == Queued;
      assert rest[i] == runs[i + 1];
    }
  }

  lemma {:induction false} NothingTaken(runs: seq<Run>)
    ensures Taken(runs, 0) == []
  {
    if runs != [] { NothingTaken(runs[1..]); }
  }

  /** Every id the history executes from here on is queued now or comes later. */
  lemma {:induction false} LogAhead(s: State, history: seq<Event>, cap: nat, x: nat)
    requires Ascending(s) && x in Log(s, history, cap)
    ensures x >= s.nextId || exists r :: r in s.runs && r.id == x && r.status == Queued
    decreases |history|
  {
    var e := history[0];
    if e.Tick? && x in Taken(s.runs, cap) {
      TakenInOrder(s.runs, cap, e.world);
      var i :| 0 <= i < |s.runs| && s.runs[i].id == x && s.runs[i].status == Queued;
      assert s.runs[i] in s.runs;
    } else {
      AfterAscending(s, e, cap);
      LogAhead(After(s, e, cap), history[1..], cap, x);
      var next := After(s, e, cap);
      if x < next.nextId {
        var r :| r in next.runs && r.id == x && r.status == Queued;
        if e.Tick? {
          var i :| 0 <= i < |next.runs| && next.runs[i] == r;
          TickedShape(s.runs, cap, e.world);
          TickedAt(s.runs, cap, e.world, i);
          SuccessIffJobsSucceed(s.runs[i], e.world(s.runs[i].id));
          assert s.runs[i] in s.runs;
        }
      }
    }
  }

  /** Over any history runs are executed in id order, so each at most once. */
  lemma {:induction false} LogAscending(s: State, history: seq<Event>, cap: nat)
    requires Ascending(s)
    ensures StrictlyAscending(Log(s, history, cap))
    decreases |history|
  {
    if history != [] {
      var e := history[0];
      var next := After(s, e, cap);
      AfterAscending(s, e, cap);
      LogAscending(next, history[1..], cap);
      if e.Tick? {
        TakenInOrder(s.runs, cap, e.world);
        forall x, y | x in Taken(s.runs, cap) && y in Log(next, history[1..], cap)
          ensures x < y
        {
          LogAhead(next, history[1..], cap, y);
          var i :| 0 <= i < |s.runs| && s.runs[i].id == x && s.runs[i].status == Queued;
          if y < next.nextId {
            var r :| r in next.runs && r.id == y && r.status == Queued;
          }
        }
        AscendingConcat(Taken(s.runs, cap), Log(next, history[1..], cap));
      }
    }
  }

  // ---- the code -----------------------------------------------------------

  /** The cap from the environment, where set to a positive number. */
  function MaxConcurrency(setting: Option<nat>): (cap: nat)
    ensures cap >= 1
    ensures setting.Some? && setting.value > 0 ==> cap == setting.value
    ensures setting.None? || setting.value == 0 ==> cap == 2
  {
    if setting.Some? && setting.value > 0 then setting.value else 2
  }

  /** All jobs are started, then joined as they end; `order` is the order in
      which their tasks end, and makes no difference. */
  method ExecuteRun(run: Run, w: World, order: seq<nat>) returns (after: Run)
    requires forall i :: 0 <= i < |run.jobs| <==> i in order
    ensures after == Executed(run, w)
  {
    if '/' !in run.repoId || !w.contextOk {
      return run.(status := Failure);
    }
    var n := |run.jobs|;
    var jobs := seq(n, i requires 0 <= i < n => run.jobs[i].(status := JobRunning));
    var runFailed := false;
    for k := 0 to |order|
      invariant |jobs| == n
      invariant forall i :: 0 <= i < n ==>
        jobs[i] == if i in order[..k] then JobAfter(run.jobs[i], w.outcomes(i)) else run.jobs[i].(status := JobRunning)
      invariant runFailed <==> exists i :: 0 <= i < n && i in order[..k] && Failed(w.outcomes(i))
    {
      var i := order[k];
      var o := w.outcomes(i);
      assert order[..k + 1] == order[..k] + [i] && i in order;
      if o.Panicked? {
        continue;
      }
      jobs := jobs[i := jobs[i].(status := if Passed(o) then JobSuccess else JobFailure)];
      if !Passed(o) {
        runFailed := true;
      }
    }
    assert order[..|order|] == order;
    after := run.(jobs := jobs, status := if runFailed then Failure else Success);
  }

  /** Where the queued runs are, oldest first. */
  function Pending(runs: seq<Run>): seq<nat>
    decreases |runs|
  {
    if runs == [] then []
    else
      var last := |runs| - 1;
      Pending(runs[..last]) + (if runs[last].status == Queued then [last] else [])
  }

  lemma {:induction false} QueuedCountSnoc(runs: seq<Run>, r: Run)
    ensures QueuedCount(runs + [r]) == QueuedCount(runs) + (if r.status == Queued then 1 else 0)
  {
    if runs != [] {
      QueuedCountSnoc(runs[1..], r);
      assert (runs + [r])[1..] == runs[1..] + [r];
    }
  }

  lemma {:induction false} PendingAt(runs: seq<Run>, n: nat)
    ensures |Pending(runs)| == QueuedCount(runs)
    ensures n < |Pending(runs)| ==>
      var i := Pending(runs)[n]; i < |runs| && runs[i].status == Queued && QueuedCount(runs[..i]) == n
    decreases |runs|
  {
    if runs != [] {
      var last := |runs| - 1;
      var front := runs[..last];
      assert runs == front + [runs[last]];
      QueuedCountSnoc(front, runs[last]);
      PendingAt(front, n);
      if n < |Pending(front)| {
        assert runs[..Pending(front)[n]] == front[..Pending(front)[n]];
      }
    }
  }

  lemma {:induction false} CountGrows(runs: seq<Run>, i: nat, j: nat)
    requires i < j <= |runs| && runs[i].status == Queued
    ensures QueuedCount(runs[..i]) < QueuedCount(runs[..j])
    decreases j - i
  {
    assert runs[..j] == runs[..j - 1] + [runs[j - 1]];
    QueuedCountSnoc(runs[..j - 1], runs[j - 1]);
    if i < j - 1 { CountGrows(runs, i, j - 1); }
  }

  /** One more run of budget changes exactly the next pending row. */
  lemma TickedNext(runs: seq<Run>, n: nat, world: nat -> World, i: nat)
    requires i < |runs| && runs[i].status == Queued && QueuedCount(runs[..i]) == n
    ensures |Ticked(runs, n, world)| == |runs| && Ticked(runs, n, world)[i] == runs[i]
    ensures Ticked(runs, n + 1, world) == Ticked(runs, n, world)[i := Executed(runs[i], world(runs[i].id))]
  {
    TickedAt(runs, n, world, i);
    TickedShape(runs, n + 1, world);
    var more, next := Ticked(runs, n + 1, world), Ticked(runs, n, world)[i := Executed(runs[i], world(runs[i].id))];
    forall j | 0 <= j < |runs|
      ensures more[j] == next[j]
    {
      TickedAt(runs, n, world, j);
      TickedAt(runs, n + 1, world, j);
      if j != i && runs[j].status == Queued {
        if j < i { CountGrows(runs, j, i); } else { CountGrows(runs, i, j); }
      }
    }
  }

  lemma {:induction false} TickedEnough(runs: seq<Run>, budget: nat, more: nat, world: nat -> World)
    requires QueuedCount(runs) <= budget <= more
    ensures Ticked(runs, budget, world) == Ticked(runs, more, world)
  {
    if runs != [] {
      if runs[0].status == Queued {
        TickedEnough(runs[1..], budget - 1, more - 1, world);
      } else {
        TickedEnough(runs[1..], budget, more, world);
      }
    }
  }

  lemma {:induction false} TickedNone(runs: seq<Run>, world: nat -> World)
    ensures Ticked(runs, 0, world) == runs
  {
    if runs != [] { TickedNone(runs[1..], world); }
  }

  class RunTable {
    var runs: seq<Run>
    var nextId: nat

    ghost function Value(): State
      reads this
    {
      State(runs, nextId)
    }

    constructor ()
      ensures Value() == State([], 0)
    {
      runs, nextId := [], 0;
    }

    /** Inserts the run, then its jobs; a run without jobs is set to skipped. */
    method EnqueueRun(repoId: string, wf: seq<WorkflowJob>) returns (id: nat)
      modifies this
      ensures Value() == Enqueued(old(Value()), repoId, wf) && id == old(nextId)
      ensures nextId == id + 1 && runs == old(runs) + [Run(id, repoId, JobsOf(wf), if JobsOf(wf) == [] then Skipped else Queued)]
    {
      id := nextId;
      var at := |runs|;
      runs, nextId := runs + [Run(id, repoId, [], Queued)], nextId + 1;
      var anyJob := false;
      for j := 0 to |wf|
        invariant nextId == old(nextId) + 1 && at == |old(runs)|
        invariant runs == old(runs) + [Run(id, repoId, JobsOf(wf[..j]), Queued)]
        invariant anyJob <==> JobsOf(wf[..j]) != []
      {
        assert wf[..j + 1][..j] == wf[..j];
        if wf[j].steps.None? {
          assert JobsOf(wf[..j]) + [] == JobsOf(wf[..j]);
          continue;
        }
        var created := CreateJobs(wf[j].key, wf[j].steps.value);
        ghost var jobs := JobsOf(wf[..j]);
        assert runs[at].jobs == jobs && JobsOf(wf[..j + 1]) == jobs + created;
        runs := runs[at := runs[at].(jobs := runs[at].jobs + created)];
        assert runs == old(runs) + [Run(id, repoId, jobs + created, Queued)];
        anyJob := anyJob || created != [];
      }
      assert wf[..|wf|] == wf;
      if !anyJob {
        runs := runs[at := runs[at].(status := Skipped)];
      }
    }

    method CreateJobs(key: string, steps: seq<Step>) returns (jobs: seq<Job>)
      ensures jobs == StepJobs(key, steps)
    {
      jobs := [];
      var stepIndex := 0;
      for k := 0 to |steps|
        invariant stepIndex == k && jobs == StepJobs(key, steps[..k])
      {
        assert steps[..k + 1][..k] == steps[..k];
        if !steps[k].runnable {
          stepIndex := stepIndex + 1;
          continue;
        }
        jobs := jobs + [Job(Label(key, steps[k], stepIndex), JobQueued)];
        stepIndex := stepIndex + 1;
      }
      assert steps[..|steps|] == steps;
    }

    /** One scheduler turn with a cluster connection. `ends` gives, for each
        run, the order in which its job tasks end. */
    method TickOnce(cap: nat, world: nat -> World, ends: nat -> seq<nat>) returns (processed: nat)
      requires forall r :: r in runs ==> forall i :: 0 <= i < |r.jobs| <==> i in ends(r.id)
      modifies this`runs
      ensures Value() == After(old(Value()), Tick(world), cap)
      ensures processed == |Taken(old(runs), cap)|
    {
      ghost var before := runs;
      var pending := Pending(runs);
      PendingAt(before, 0);
      TickedNone(before, world);
      TakenCount(before, cap);
      if |pending| > cap {
        pending := pending[..cap];
      } else {
        TickedEnough(before, |pending|, cap, world);
      }
      processed := ExecuteAll(pending, world, ends);
    }

    /** Executes the given queued runs, one after the other. */
    method ExecuteAll(pending: seq<nat>, world: nat -> World, ends: nat -> seq<nat>) returns (processed: nat)
      requires forall r :: r in runs ==> forall i :: 0 <= i < |r.jobs| <==> i in ends(r.id)
      requires pending <= Pending(runs)
      modifies this`runs
      ensures runs == Ticked(old(runs), |pending|, world) && processed == |pending|
    {
      ghost var before := runs;
      TickedNone(before, world);
      processed := 0;
      while processed < |pending|
        invariant processed <= |pending|
        invariant runs == Ticked(before, processed, world)
      {
        var i := pending[processed];
        PendingAt(before, processed);
        TickedNext(before, processed, world, i);
        var after := ExecuteRun(runs[i], world(runs[i].id), ends(runs[i].id));
        runs := runs[i := after];
        processed := processed + 1;
      }
    }
  }

  // ---- enqueueing is not atomic -------------------------------------------

  /** The first statement of an enqueue: the run row, visible at once. */
  function Inserted(s: State, repoId: string): State {
    State(s.runs + [Run(s.nextId, repoId, [], Queued)], s.nextId + 1)
  }

  /** The rest of the enqueue, for the row at position `i`. */
  function Completed(s: State, i: nat, wf: seq<WorkflowJob>): State
    requires i < |s.runs|
  {
    var jobs := s.runs[i].jobs + JobsOf(wf);
    s.(runs := s.runs[i := s.runs[i].(jobs := jobs, status := if JobsOf(wf) == [] then Skipped else s.runs[i].status)])
  }

  /** Undisturbed, the two statements are one enqueue. */
  lemma EnqueueInTwo(s: State, repoId: string, wf: seq<WorkflowJob>)
    ensures Completed(Inserted(s, repoId), |s.runs|, wf) == Enqueued(s, repoId, wf)
  {
    assert [] + JobsOf(wf) == JobsOf(wf);
    assert Completed(Inserted(s, repoId), |s.runs|, wf).runs == Enqueued(s, repoId, wf).runs;
  }

  /** A run that is queued is never made a skipped one by later events. */
  lemma {:induction false} NeverBecomesSkipped(s: State, history: seq<Event>, cap: nat, i: nat)
    requires i < |s.runs| && s.runs[i].status == Queued
    ensures i < |Replay(s, history, cap).runs| && Replay(s, history, cap).runs[i].status != Skipped
    decreases |history|
  {
    if history != [] {
      var e := history[0];
      if e.Tick? {
        TickedAt(s.runs, cap, e.world, i);
        SuccessIffJobsSucceed(s.runs[i], e.world(s.runs[i].id));
      }
      var next := After(s, e, cap);
      if next.runs[i].status == Queued {
        NeverBecomesSkipped(next, history[1..], cap, i);
      } else {
        TerminalStays(next, history[1..], cap, i);
      }
    }
  }

  /** Whatever happens between the first statement of an enqueue and the rest,
      a run that has ended changes its status after all exactly when the ticks in
      between got to it and its workflow has no runnable step. */
  lemma TicksInsideEnqueue(s: State, repoId: string, wf: seq<WorkflowJob>, history: seq<Event>, cap: nat)
    requires cap >= 1
    ensures var mid, i := Replay(Inserted(s, repoId), history, cap), |s.runs|;
      && i < |mid.runs|
      && (mid.runs[i].status != Queued <==> Ticks(history) * cap > QueuedCount(s.runs))
      && (mid.runs[i].status != Queued && Completed(mid, i, wf).runs[i].status != mid.runs[i].status
          <==> Ticks(history) * cap > QueuedCount(s.runs) && JobsOf(wf) == [])
  {
    var t, i := Inserted(s, repoId), |s.runs|;
    assert t.runs[..i] == s.runs;
    LatencyExact(t, history, cap, i);
    NeverBecomesSkipped(t, history, cap, i);
  }
}
