/** Translating the linearised git commits into native jj commits, anchoring
    each git sha to a change-id and a commit-id. */
module IngestTranslate {
  import opened Common
  import opened CommitDag
  import opened IngestOrder

  type CommitId = string
  type ChangeId = string

  /** What is read from one git commit; `conflicts` counts the files of its
      tree that carry conflict markers. */
  datatype GitCommit = GitCommit(parents: seq<Sha>, changeId: ChangeId, message: string, conflicts: nat)
  datatype NativeCommit = NativeCommit(parents: seq<CommitId>, changeId: ChangeId, message: string)
  datatype AnchorRow = AnchorRow(changeId: string, commitId: Option<string>)

  type Objects = map<Sha, GitCommit>
  type Anchors = map<Sha, AnchorRow>
  type NativeStore = map<CommitId, NativeCommit>

  /** The native backend: content-derived commit ids, the root commit's id,
      and the text forms in which ids are kept in the anchor table. */
  datatype Backend = Backend(
    idOf: NativeCommit -> CommitId,
    root: CommitId,
    hex: CommitId -> string,
    fromHex: string -> Option<CommitId>,
    reverseHex: ChangeId -> string,
    fromReverseHex: string -> Option<ChangeId>)
  {
    ghost predicate Sound() {
      && (forall a, b :: idOf(a) == idOf(b) ==> a == b)
      && (forall c :: fromHex(hex(c)) == Some(c))
      && (forall c :: fromReverseHex(reverseHex(c)) == Some(c))
    }
  }

  datatype Progress = Progress(
    anchors: Anchors, native: NativeStore, ids: map<Sha, CommitId>, written: nat, conflicts: nat)
  datatype RunResult = RunResult(p: Progress, ok: bool)
  datatype Outcome = Outcome(commits: nat, conflicts: nat)
  datatype IngestError = MissingCommit | InvalidChangeId

  function GraphOf(objects: Objects): Graph {
    map s | s in objects :: objects[s].parents
  }

  /** Translated before: the anchor row names a native commit. */
  predicate Translated(anchors: Anchors, sha: Sha) {
    sha in anchors && anchors[sha].commitId.Some?
  }

  /** The parents that were met earlier in this walk, in parent order. */
  function KnownParents(ids: map<Sha, CommitId>, parents: seq<Sha>): seq<CommitId>
    decreases |parents|
  {
    if parents == [] then []
    else
      var last := |parents| - 1;
      KnownParents(ids, parents[..last]) + (if parents[last] in ids then [ids[parents[last]]] else [])
  }

  function NativeParents(b: Backend, ids: map<Sha, CommitId>, parents: seq<Sha>): seq<CommitId> {
    var known := KnownParents(ids, parents);
    if known == [] then [b.root] else known
  }

  /** The change-id a commit is written under: an anchored one wins over the
      commit's own. None when the anchored text is not a change-id. */
  function ChosenChangeId(b: Backend, objects: Objects, anchors: Anchors, sha: Sha): Option<ChangeId>
    requires sha in objects
  {
    if sha in anchors then b.fromReverseHex(anchors[sha].changeId) else Some(objects[sha].changeId)
  }

  /** One turn of the loop; None is the error return. */
  function Step(b: Backend, objects: Objects, sha: Sha, p: Progress): Option<Progress>
    requires sha in objects
  {
    if Translated(p.anchors, sha) then
      match b.fromHex(p.anchors[sha].commitId.value)
      case Some(c) => Some(p.(ids := p.ids[sha := c]))
      case None => Some(p)
    else
      match ChosenChangeId(b, objects, p.anchors, sha)
      case None => None
      case Some(changeId) =>
        var commit := NativeCommit(NativeParents(b, p.ids, objects[sha].parents), changeId, objects[sha].message);
        var id := b.idOf(commit);
        Some(Progress(
               p.anchors[sha := AnchorRow(b.reverseHex(changeId), Some(b.hex(id)))],
               p.native[id := commit],
               p.ids[sha := id],
               p.written + 1,
               p.conflicts + objects[sha].conflicts))
  }

  function Run(b: Backend, objects: Objects, order: seq<Sha>, p: Progress): RunResult
    requires forall s :: s in order ==> s in objects
    decreases |order|
  {
    if order == [] then RunResult(p, true)
    else
      var last := |order| - 1;
      var before := Run(b, objects, order[..last], p);
      if !before.ok then before
      else
        match Step(b, objects, order[last], before.p)
        case None => RunResult(before.p, false)
        case Some(next) => RunResult(next, true)
  }

  function Start(anchors: Anchors, native: NativeStore): Progress {
    Progress(anchors, native, map[], 0, 0)
  }

  /** The native commit an anchored sha stands for. */
  ghost function CommitOf(b: Backend, anchors: Anchors, sha: Sha): Option<CommitId> {
    if Translated(anchors, sha) then b.fromHex(anchors[sha].commitId.value) else None
  }

  ghost predicate AreImages(b: Backend, anchors: Anchors, parents: seq<Sha>, natives: seq<CommitId>) {
    && |natives| == |parents|
    && forall i :: 0 <= i < |parents| ==> CommitOf(b, anchors, parents[i]) == Some(natives[i])
  }

  /** `c` is written exactly as the git commit `sha` asks: the parents are the
      images of the git parents, in order, or the root alone. */
  ghost predicate Mirrors(b: Backend, objects: Objects, anchors: Anchors, sha: Sha, c: NativeCommit) {
    && sha in objects && sha in anchors
    && b.reverseHex(c.changeId) == anchors[sha].changeId
    && c.message == objects[sha].message
    && (if objects[sha].parents == [] then c.parents == [b.root]
        else AreImages(b, anchors, objects[sha].parents, c.parents))
  }

  /** A translated sha names a stored native commit that mirrors it. */
  ghost predicate FaithfulAt(b: Backend, objects: Objects, anchors: Anchors, native: NativeStore, sha: Sha) {
    Translated(anchors, sha) ==>
      match CommitOf(b, anchors, sha)
      case None => false
      case Some(c) => c in native && Mirrors(b, objects, anchors, sha, native[c])
  }

  /** The change-id text of a row, if it is one at all, is the text this program
      writes for that change-id. */
  predicate WrittenForm(b: Backend, anchors: Anchors, sha: Sha) {
    sha in anchors ==>
      var changeId := b.fromReverseHex(anchors[sha].changeId);
      changeId.Some? ==> b.reverseHex(changeId.value) == anchors[sha].changeId
  }

  ghost predicate Faithful(b: Backend, objects: Objects, anchors: Anchors, native: NativeStore) {
    && (forall c :: c in native ==> b.idOf(native[c]) == c)
    && (forall sha :: WrittenForm(b, anchors, sha))
    && (forall sha :: FaithfulAt(b, objects, anchors, native, sha))
  }

  /** Anchor rows as one ingest may leave them to the next: nothing translated
      changes, and a known change-id is kept. */
  ghost predicate Preserves(before: Anchors, after: Anchors) {
    && KeepsTranslated(before, after)
    && (forall s :: s in before ==> s in after && after[s].changeId == before[s].changeId)
  }

  ghost predicate KeepsTranslated(before: Anchors, after: Anchors) {
    forall s :: Translated(before, s) ==> s in after && after[s] == before[s]
  }

  /** The walk's own map agrees with the anchors on what was walked. */
  ghost predicate Recorded(b: Backend, p: Progress, done: seq<Sha>) {
    forall m :: m in done ==> m in p.ids && CommitOf(b, p.anchors, m) == Some(p.ids[m])
  }

  lemma {:induction false} ParentsAllKnown(b: Backend, p: Progress, done: seq<Sha>, parents: seq<Sha>)
    requires Recorded(b, p, done) && forall m :: m in parents ==> m in done
    ensures AreImages(b, p.anchors, parents, KnownParents(p.ids, parents))
    decreases |parents|
  {
    if parents != [] {
      ParentsAllKnown(b, p, done, parents[..|parents| - 1]);
      assert parents[|parents| - 1] in done;
    }
  }

  lemma ImagesKept(b: Backend, before: Anchors, after: Anchors, parents: seq<Sha>, natives: seq<CommitId>)
    requires KeepsTranslated(before, after) && AreImages(b, before, parents, natives)
    ensures AreImages(b, after, parents, natives)
  {
    forall i | 0 <= i < |parents|
      ensures CommitOf(b, after, parents[i]) == Some(natives[i])
    {
      assert CommitOf(b, before, parents[i]).Some?;
      assert Translated(before, parents[i]);
    }
  }

  lemma StepRecords(b: Backend, objects: Objects, sha: Sha, p: Progress, done: seq<Sha>)
    requires b.Sound() && sha in objects && sha !in done
    requires FaithfulAt(b, objects, p.anchors, p.native, sha) && Recorded(b, p, done)
    requires Step(b, objects, sha, p).Some?
    ensures Recorded(b, Step(b, objects, sha, p).value, done + [sha])
  {
    var q := Step(b, objects, sha, p).value;
    assert CommitOf(b, q.anchors, sha) == Some(q.ids[sha]);
    forall m | m in done
      ensures m in q.ids && CommitOf(b, q.anchors, m) == Some(q.ids[m])
    {
      assert m != sha;
      assert m in p.ids;
    }
  }

  /** What one step does to the anchor rows, the counters and the map. */
  lemma StepFrame(b: Backend, objects: Objects, sha: Sha, p: Progress, done: seq<Sha>)
    requires b.Sound() && sha in objects && sha !in done
    requires FaithfulAt(b, objects, p.anchors, p.native, sha) && WrittenForm(b, p.anchors, sha) && Recorded(b, p, done)
    requires Step(b, objects, sha, p).Some?
    ensures var q := Step(b, objects, sha, p).value;
      && Preserves(p.anchors, q.anchors)
      && q.anchors.Keys == p.anchors.Keys + {sha}
      && Recorded(b, q, done + [sha])
      && q.written == p.written + (if Translated(p.anchors, sha) then 0 else 1)
      && q.conflicts == p.conflicts + (if Translated(p.anchors, sha) then 0 else objects[sha].conflicts)
      && (Translated(p.anchors, sha) ==> q.anchors == p.anchors && q.native == p.native)
      && (forall s :: Translated(q.anchors, s) <==> s == sha || Translated(p.anchors, s))
      && (forall s :: s != sha && s in p.anchors ==> q.anchors[s] == p.anchors[s])
  {
    StepRecords(b, objects, sha, p, done);
  }

  /** A commit is written under its anchored change-id where there is one, and
      under its own where there is none. */
  ghost predicate TakesChangeId(b: Backend, objects: Objects, before: Anchors, after: Anchors, native: NativeStore, s: Sha)
    requires s in objects
  {
    var c := CommitOf(b, after, s);
    && s in after && c.Some? && c.value in native
    && (if s in before then b.fromReverseHex(before[s].changeId) == Some(native[c.value].changeId)
        else native[c.value].changeId == objects[s].changeId && after[s].changeId == b.reverseHex(objects[s].changeId))
  }

  /** The commit a step writes mirrors its git commit, parents included. */
  lemma StepMirrors(b: Backend, objects: Objects, sha: Sha, p: Progress, done: seq<Sha>)
    requires b.Sound() && sha in objects && sha !in done && !Translated(p.anchors, sha)
    requires Recorded(b, p, done) && forall m :: m in objects[sha].parents ==> m in done
    requires Step(b, objects, sha, p).Some?
    ensures var q := Step(b, objects, sha, p).value; FaithfulAt(b, objects, q.anchors, q.native, sha)
    ensures var q := Step(b, objects, sha, p).value; TakesChangeId(b, objects, p.anchors, q.anchors, q.native, sha)
  {
    var q := Step(b, objects, sha, p).value;
    var parents := objects[sha].parents;
    ParentsAllKnown(b, p, done, parents);
    ImagesKept(b, p.anchors, q.anchors, parents, KnownParents(p.ids, parents));
    assert CommitOf(b, q.anchors, sha) == Some(q.ids[sha]);
  }

  /** What was faithful stays so across a step: ids are content-derived, so the
      commit written never replaces a different one. */
  lemma StepKeepsAt(b: Backend, objects: Objects, sha: Sha, p: Progress, s: Sha)
    requires b.Sound() && sha in objects && s != sha && !Translated(p.anchors, sha)
    requires Faithful(b, objects, p.anchors, p.native)
    requires Step(b, objects, sha, p).Some?
    ensures var q := Step(b, objects, sha, p).value; FaithfulAt(b, objects, q.anchors, q.native, s)
  {
    var q := Step(b, objects, sha, p).value;
    if Translated(q.anchors, s) {
      assert FaithfulAt(b, objects, p.anchors, p.native, s);
      var c := CommitOf(b, p.anchors, s).value;
      assert q.native[c] == p.native[c];
      if objects[s].parents != [] {
        ImagesKept(b, p.anchors, q.anchors, objects[s].parents, p.native[c].parents);
      }
    }
  }

  /** The change-id text of a written row is the written form. */
  lemma StepWrites(b: Backend, objects: Objects, sha: Sha, p: Progress, s: Sha)
    requires b.Sound() && sha in objects && Step(b, objects, sha, p).Some? && WrittenForm(b, p.anchors, s)
    ensures WrittenForm(b, Step(b, objects, sha, p).value.anchors, s)
  {
  }

  lemma StepFaithful(b: Backend, objects: Objects, sha: Sha, p: Progress, done: seq<Sha>)
    requires b.Sound() && sha in objects && sha !in done
    requires Faithful(b, objects, p.anchors, p.native)
    requires Recorded(b, p, done) && forall m :: m in objects[sha].parents ==> m in done
    requires Step(b, objects, sha, p).Some?
    ensures var q := Step(b, objects, sha, p).value; Faithful(b, objects, q.anchors, q.native)
  {
    var q := Step(b, objects, sha, p).value;
    forall s ensures WrittenForm(b, q.anchors, s) { StepWrites(b, objects, sha, p, s); }
    if !Translated(p.anchors, sha) {
      StepMirrors(b, objects, sha, p, done);
      forall s ensures FaithfulAt(b, objects, q.anchors, q.native, s) {
        if s != sha {
          StepKeepsAt(b, objects, sha, p, s);
        }
      }
    }
  }

  /** What a loop over `order` leaves, also when it stopped early. */
  ghost predicate Kept(b: Backend, objects: Objects, order: seq<Sha>, anchors: Anchors, r: RunResult) {
    && Preserves(anchors, r.p.anchors)
    && Faithful(b, objects, r.p.anchors, r.p.native)
    && (r.ok ==> Recorded(b, r.p, order))
  }

  lemma PreservesTwice(a: Anchors, b: Anchors, c: Anchors)
    requires Preserves(a, b) && Preserves(b, c)
    ensures Preserves(a, c)
  {
  }

  lemma StepKept(b: Backend, objects: Objects, sha: Sha, before: RunResult, done: seq<Sha>, anchors: Anchors)
    requires b.Sound() && sha in objects && sha !in done && before.ok && Kept(b, objects, done, anchors, before)
    requires forall m :: m in objects[sha].parents ==> m in done
    requires Step(b, objects, sha, before.p).Some?
    ensures Kept(b, objects, done + [sha], anchors, RunResult(Step(b, objects, sha, before.p).value, true))
  {
    StepFrame(b, objects, sha, before.p, done);
    StepFaithful(b, objects, sha, before.p, done);
    PreservesTwice(anchors, before.p.anchors, Step(b, objects, sha, before.p).value.anchors);
  }

  /** The whole loop over a parents-first order, from faithful tables. */
  lemma {:induction false} RunKeeps(b: Backend, objects: Objects, order: seq<Sha>, anchors: Anchors, native: NativeStore)
    requires b.Sound() && Distinct(order) && ParentsFirst(GraphOf(objects), order)
    requires Faithful(b, objects, anchors, native)
    ensures Kept(b, objects, order, anchors, Run(b, objects, order, Start(anchors, native)))
    decreases |order|
  {
    if order != [] {
      var last := |order| - 1;
      var done := order[..last];
      ParentsFirstPrefix(GraphOf(objects), order, last);
      RunKeeps(b, objects, done, anchors, native);
      var before := Run(b, objects, done, Start(anchors, native));
      assert order == done + [order[last]];
      if before.ok && Step(b, objects, order[last], before.p).Some? {
        StepKept(b, objects, order[last], before, done, anchors);
      }
    }
  }

  lemma ParentsFirstPrefix(g: Graph, order: seq<Sha>, n: nat)
    requires ParentsFirst(g, order) && n <= |order|
    ensures ParentsFirst(g, order[..n])
  {
    forall i | 0 <= i < n
      ensures order[..n][i] in g && forall m :: m in g[order[..n][i]] ==> m in order[..n][..i]
    {
      assert order[..n][..i] == order[..i];
    }
  }

  function Unseen(anchors: Anchors, order: seq<Sha>): set<Sha> {
    set s | s in order && !Translated(anchors, s)
  }

  function ConflictTotal(objects: Objects, anchors: Anchors, order: seq<Sha>): nat
    requires forall s :: s in order ==> s in objects
    decreases |order|
  {
    if order == [] then 0
    else
      var last := |order| - 1;
      ConflictTotal(objects, anchors, order[..last])
      + (if Translated(anchors, order[last]) then 0 else objects[order[last]].conflicts)
  }

  /** The loop leaves the row of a commit it does not walk as it was. */
  lemma {:induction false} RunUntouched(b: Backend, objects: Objects, order: seq<Sha>, p: Progress, s: Sha)
    requires (forall x :: x in order ==> x in objects) && s !in order
    ensures var q := Run(b, objects, order, p).p;
      && (s in p.anchors <==> s in q.anchors)
      && (s in p.anchors ==> q.anchors[s] == p.anchors[s])
    decreases |order|
  {
    if order != [] {
      RunUntouched(b, objects, order[..|order| - 1], p, s);
    }
  }

  /** A completed loop leaves every walked commit translated. */
  lemma {:induction false} RunTranslates(b: Backend, objects: Objects, order: seq<Sha>, p: Progress, s: Sha)
    requires (forall x :: x in order ==> x in objects) && s in order
    requires Run(b, objects, order, p).ok
    ensures Translated(Run(b, objects, order, p).p.anchors, s)
    decreases |order|
  {
    var last := |order| - 1;
    assert order == order[..last] + [order[last]];
    if s != order[last] {
      RunTranslates(b, objects, order[..last], p, s);
    }
  }

  lemma RunTranslatesAll(b: Backend, objects: Objects, order: seq<Sha>, p: Progress)
    requires (forall x :: x in order ==> x in objects) && Run(b, objects, order, p).ok
    ensures forall s :: s in order ==> Translated(Run(b, objects, order, p).p.anchors, s)
  {
    forall s | s in order ensures Translated(Run(b, objects, order, p).p.anchors, s) { RunTranslates(b, objects, order, p, s); }
  }

  lemma AllTakeChangeIds(b: Backend, known: Objects, objects: Objects, order: seq<Sha>, anchors: Anchors, native: NativeStore)
    requires b.Sound() && Holds(known, objects) && (forall x :: x in order ==> x in objects) && Distinct(order)
    requires Run(b, known, order, Start(anchors, native)).ok
    requires Faithful(b, known, Run(b, known, order, Start(anchors, native)).p.anchors, Run(b, known, order, Start(anchors, native)).p.native)
    ensures var q := Run(b, known, order, Start(anchors, native)).p;
      forall s :: s in Unseen(anchors, order) ==> TakesChangeId(b, objects, anchors, q.anchors, q.native, s)
  {
    forall s | s in Unseen(anchors, order)
      ensures var q := Run(b, known, order, Start(anchors, native)).p; TakesChangeId(b, objects, anchors, q.anchors, q.native, s)
    {
      RunTakesChangeId(b, known, order, anchors, native, s);
    }
  }

  /** The loop stops with an error exactly when some commit to be translated
      has an anchor row whose change-id cannot be read. */
  lemma {:induction false} RunFails(b: Backend, objects: Objects, order: seq<Sha>, anchors: Anchors, native: NativeStore)
    requires (forall s :: s in order ==> s in objects) && Distinct(order)
    ensures Run(b, objects, order, Start(anchors, native)).ok
       <==> forall s :: s in Unseen(anchors, order) && s in anchors ==> b.fromReverseHex(anchors[s].changeId).Some?
    decreases |order|
  {
    if order != [] {
      var last := |order| - 1;
      var done, sha := order[..last], order[last];
      assert order == done + [sha] && sha !in done;
      RunFails(b, objects, done, anchors, native);
      RunUntouched(b, objects, done, Start(anchors, native), sha);
      UnseenStep(anchors, done, sha);
      assert sha in Unseen(anchors, order) <==> !Translated(anchors, sha);
    }
  }

  /** The row a completed loop leaves for a new commit. */
  lemma {:induction false} RunChooses(b: Backend, objects: Objects, order: seq<Sha>, p: Progress, s: Sha)
    requires (forall x :: x in order ==> x in objects) && Distinct(order) && s in order
    requires !Translated(p.anchors, s) && Run(b, objects, order, p).ok
    ensures var q := Run(b, objects, order, p).p;
      && s in q.anchors
      && (s !in p.anchors ==> q.anchors[s].changeId == b.reverseHex(objects[s].changeId))
      && (s in p.anchors ==> var own := b.fromReverseHex(p.anchors[s].changeId);
            own.Some? && q.anchors[s].changeId == b.reverseHex(own.value))
    decreases |order|
  {
    var last := |order| - 1;
    assert order == order[..last] + [order[last]];
    if s != order[last] {
      RunChooses(b, objects, order[..last], p, s);
    } else {
      RunUntouched(b, objects, order[..last], p, s);
    }
  }

  lemma RunTakesChangeId(b: Backend, known: Objects, order: seq<Sha>, anchors: Anchors, native: NativeStore, s: Sha)
    requires b.Sound() && (forall x :: x in order ==> x in known) && Distinct(order) && s in order
    requires !Translated(anchors, s) && Run(b, known, order, Start(anchors, native)).ok
    requires Faithful(b, known, Run(b, known, order, Start(anchors, native)).p.anchors, Run(b, known, order, Start(anchors, native)).p.native)
    ensures var q := Run(b, known, order, Start(anchors, native)).p; TakesChangeId(b, known, anchors, q.anchors, q.native, s)
  {
    var q := Run(b, known, order, Start(anchors, native)).p;
    RunChooses(b, known, order, Start(anchors, native), s);
    RunTranslates(b, known, order, Start(anchors, native), s);
    assert FaithfulAt(b, known, q.anchors, q.native, s);
    var c := q.native[CommitOf(b, q.anchors, s).value];
    assert b.fromReverseHex(b.reverseHex(c.changeId)) == Some(c.changeId);
  }

  /** The files with conflict markers of some commits. */
  ghost function ConflictFiles(objects: Objects, commits: set<Sha>): set<(Sha, int)>
    requires forall s :: s in commits ==> s in objects
  {
    set s, i | s in commits && 0 <= i < objects[s].conflicts :: (s, i)
  }

  lemma {:induction false} FilesOfOne(s: Sha, n: nat)
    ensures |set i | 0 <= i < n :: (s, i)| == n
  {
    if n > 0 {
      FilesOfOne(s, n - 1);
      assert (set i | 0 <= i < n :: (s, i)) == (set i | 0 <= i < n - 1 :: (s, i)) + {(s, n - 1)};
    }
  }

  lemma FilesOfMore(objects: Objects, commits: set<Sha>, s: Sha)
    requires (forall c :: c in commits ==> c in objects) && s in objects && s !in commits
    ensures |ConflictFiles(objects, commits + {s})| == |ConflictFiles(objects, commits)| + objects[s].conflicts
  {
    var own := set i | 0 <= i < objects[s].conflicts :: (s, i);
    FilesOfOne(s, objects[s].conflicts);
    assert ConflictFiles(objects, commits + {s}) == ConflictFiles(objects, commits) + own;
    assert ConflictFiles(objects, commits) !! own;
  }

  lemma {:induction false} ConflictTotalCounts(objects: Objects, anchors: Anchors, order: seq<Sha>)
    requires (forall s :: s in order ==> s in objects) && Distinct(order)
    ensures ConflictTotal(objects, anchors, order) == |ConflictFiles(objects, Unseen(anchors, order))|
    decreases |order|
  {
    if order == [] {
      assert ConflictFiles(objects, Unseen(anchors, order)) == {};
    } else {
      var done, s := order[..|order| - 1], order[|order| - 1];
      assert order == done + [s] && s !in done;
      ConflictTotalCounts(objects, anchors, done);
      FilesOfNext(objects, anchors, done, s);
    }
  }

  lemma FilesOfNext(objects: Objects, anchors: Anchors, done: seq<Sha>, s: Sha)
    requires (forall c :: c in done ==> c in objects) && s in objects && s !in done
    ensures |ConflictFiles(objects, Unseen(anchors, done + [s]))|
         == |ConflictFiles(objects, Unseen(anchors, done))| + (if Translated(anchors, s) then 0 else objects[s].conflicts)
  {
    UnseenStep(anchors, done, s);
    assert Unseen(anchors, done) + {} == Unseen(anchors, done);
    if !Translated(anchors, s) { FilesOfMore(objects, Unseen(anchors, done), s); }
  }

  /** What the last turn of a completed loop adds to the counters. */
  lemma RunLast(b: Backend, objects: Objects, order: seq<Sha>, p: Progress)
    requires (forall s :: s in order ==> s in objects) && order != [] && Run(b, objects, order, p).ok
    ensures var last := |order| - 1;
      var before, after := Run(b, objects, order[..last], p), Run(b, objects, order, p);
      var isNew := !Translated(before.p.anchors, order[last]);
      && before.ok
      && after.p.written == before.p.written + (if isNew then 1 else 0)
      && after.p.conflicts == before.p.conflicts + (if isNew then objects[order[last]].conflicts else 0)
  {
  }

  /** The outcome counts exactly the commits not translated before. */
  lemma {:induction false} RunCounts(b: Backend, objects: Objects, order: seq<Sha>, anchors: Anchors, native: NativeStore)
    requires (forall s :: s in order ==> s in objects) && Distinct(order)
    requires Run(b, objects, order, Start(anchors, native)).ok
    ensures Run(b, objects, order, Start(anchors, native)).p.written == |Unseen(anchors, order)|
    decreases |order|
  {
    if order != [] {
      var last := |order| - 1;
      var done, sha := order[..last], order[last];
      RunLast(b, objects, order, Start(anchors, native));
      RunCounts(b, objects, done, anchors, native);
      assert order == done + [sha] && sha !in done;
      RunUntouched(b, objects, done, Start(anchors, native), sha);
      UnseenStep(anchors, done, sha);
    }
  }

  /** The conflict count adds up the conflicting files of those commits. */
  lemma {:induction false} RunCountsConflicts(b: Backend, objects: Objects, order: seq<Sha>, anchors: Anchors, native: NativeStore)
    requires (forall s :: s in order ==> s in objects) && Distinct(order)
    requires Run(b, objects, order, Start(anchors, native)).ok
    ensures Run(b, objects, order, Start(anchors, native)).p.conflicts == ConflictTotal(objects, anchors, order)
    decreases |order|
  {
    if order != [] {
      var last := |order| - 1;
      RunLast(b, objects, order, Start(anchors, native));
      RunCountsConflicts(b, objects, order[..last], anchors, native);
      RunUntouched(b, objects, order[..last], Start(anchors, native), order[last]);
    }
  }

  lemma UnseenStep(anchors: Anchors, done: seq<Sha>, sha: Sha)
    requires sha !in done
    ensures Unseen(anchors, done + [sha]) == Unseen(anchors, done) + (if Translated(anchors, sha) then {} else {sha})
    ensures |Unseen(anchors, done + [sha])| == |Unseen(anchors, done)| + (if Translated(anchors, sha) then 0 else 1)
  {
    var more := if Translated(anchors, sha) then {} else {sha};
    assert Unseen(anchors, done + [sha]) == Unseen(anchors, done) + more;
    assert Unseen(anchors, done) !! more;
  }

  lemma NothingUnseen(anchors: Anchors, order: seq<Sha>)
    requires Unseen(anchors, order) == {}
    ensures forall s :: s in order ==> Translated(anchors, s)
  {
    assert forall s :: s in order && !Translated(anchors, s) ==> s in Unseen(anchors, order);
  }

  /** Nothing new to translate: the loop changes no table. */
  lemma {:induction false} RunIdle(b: Backend, objects: Objects, order: seq<Sha>, anchors: Anchors, native: NativeStore)
    requires b.Sound() && forall s :: s in order ==> s in objects && Translated(anchors, s)
    ensures var r := Run(b, objects, order, Start(anchors, native));
      r.ok && r.p.anchors == anchors && r.p.native == native && r.p.written == 0 && r.p.conflicts == 0
    decreases |order|
  {
    if order != [] {
      RunIdle(b, objects, order[..|order| - 1], anchors, native);
    }
  }

  /** Rows of a smaller object database stay faithful in a grown one. */
  lemma GrownGraphFaithful(b: Backend, objects: Objects, grown: Objects, anchors: Anchors, native: NativeStore)
    requires Faithful(b, objects, anchors, native)
    requires Holds(grown, objects)
    ensures Faithful(b, grown, anchors, native)
  {
    forall sha ensures FaithfulAt(b, grown, anchors, native, sha) {
      assert FaithfulAt(b, objects, anchors, native, sha);
    }
  }

  /** `known` holds every object of `objects`; a sha names its content. */
  predicate Holds(known: Objects, objects: Objects) {
    forall s :: s in objects ==> s in known && known[s] == objects[s]
  }

  /** The loop sees only the objects it walks. */
  lemma {:induction false} RunAgrees(b: Backend, known: Objects, objects: Objects, order: seq<Sha>, p: Progress)
    requires (forall s :: s in order ==> s in objects) && Holds(known, objects)
    ensures Run(b, objects, order, p) == Run(b, known, order, p)
    decreases |order|
  {
    if order != [] { RunAgrees(b, known, objects, order[..|order| - 1], p); }
  }

  lemma ParentsFirstAgrees(known: Objects, objects: Objects, order: seq<Sha>)
    requires ParentsFirst(GraphOf(objects), order) && Holds(known, objects)
    ensures ParentsFirst(GraphOf(known), order)
  {
  }

  /** Ingesting the same history again writes nothing and changes no table. */
  lemma ReingestIdle(b: Backend, objects: Objects, order: seq<Sha>, again: seq<Sha>, p: Progress)
    requires b.Sound() && (forall s :: s in order ==> s in objects) && (forall s :: s in again ==> s in order)
    requires Run(b, objects, order, p).ok
    ensures var q := Run(b, objects, order, p).p;
      var r := Run(b, objects, again, Start(q.anchors, q.native));
      r.ok && r.p.written == 0 && r.p.conflicts == 0 && r.p.anchors == q.anchors && r.p.native == q.native
  {
    var q := Run(b, objects, order, p).p;
    forall s | s in again
      ensures Translated(q.anchors, s)
    {
      RunTranslates(b, objects, order, p, s);
    }
    RunIdle(b, objects, again, q.anchors, q.native);
  }

  /** All a completed loop has done, in terms of the commits that were new. */
  lemma RunDone(b: Backend, known: Objects, objects: Objects, order: seq<Sha>, anchors: Anchors, native: NativeStore)
    requires b.Sound() && Holds(known, objects) && (forall x :: x in order ==> x in objects) && Distinct(order)
    requires Run(b, objects, order, Start(anchors, native)).ok
    requires Run(b, objects, order, Start(anchors, native)) == Run(b, known, order, Start(anchors, native))
    requires Faithful(b, known, Run(b, objects, order, Start(anchors, native)).p.anchors, Run(b, objects, order, Start(anchors, native)).p.native)
    ensures var q, unseen := Run(b, objects, order, Start(anchors, native)).p, Unseen(anchors, order);
      && (forall s :: s in unseen ==> TakesChangeId(b, objects, anchors, q.anchors, q.native, s))
      && (forall s :: s in order ==> Translated(q.anchors, s))
      && q.written == |unseen| && q.conflicts == |ConflictFiles(objects, unseen)|
      && (unseen == {} ==> q.written == 0 && q.conflicts == 0 && q.anchors == anchors && q.native == native)
  {
    RunCounts(b, objects, order, anchors, native);
    RunCountsConflicts(b, objects, order, anchors, native);
    ConflictTotalCounts(objects, anchors, order);
    AllTakeChangeIds(b, known, objects, order, anchors, native);
    RunTranslatesAll(b, objects, order, Start(anchors, native));
    if Unseen(anchors, order) == {} {
      NothingUnseen(anchors, order);
      RunIdle(b, objects, order, anchors, native);
    }
  }

  /** The commits an ingest from these heads has still to translate. */
  ghost function NewCommits(objects: Objects, heads: seq<Sha>, anchors: Anchors): set<Sha> {
    set s | s in objects && ReachedFrom(GraphOf(objects), heads, s) && !Translated(anchors, s)
  }

  /** The tables of one ingested repository. */
  class RepoTables {
    var anchors: Anchors
    var native: NativeStore

    constructor ()
      ensures anchors == map[] && native == map[]
    {
      anchors, native := map[], map[];
    }

    method LookupAnchor(sha: Sha) returns (row: Option<AnchorRow>)
      ensures row == if sha in anchors then Some(anchors[sha]) else None
    {
      row := if sha in anchors then Some(anchors[sha]) else None;
    }

    method SetAnchor(sha: Sha, changeId: string, commitId: string)
      modifies this`anchors
      ensures anchors == old(anchors)[sha := AnchorRow(changeId, Some(commitId))]
    {
      anchors := anchors[sha := AnchorRow(changeId, Some(commitId))];
    }

    /** The translation loop of one transaction. Rows set before an error stay. */
    method Translate(b: Backend, objects: Objects, order: seq<Sha>) returns (r: Result<Outcome, IngestError>)
      requires forall s :: s in order ==> s in objects
      modifies this
      ensures var q := Run(b, objects, order, Start(old(anchors), old(native)));
        && anchors == q.p.anchors && native == q.p.native
        && r == if q.ok then Ok(Outcome(q.p.written, q.p.conflicts)) else Err(InvalidChangeId)
    {
      var ids: map<Sha, CommitId> := map[];
      var written: nat, conflicts: nat := 0, 0;
      ghost var start := Start(anchors, native);
      var i := 0;
      while i < |order|
        invariant 0 <= i <= |order|
        invariant Run(b, objects, order[..i], start) == RunResult(Progress(anchors, native, ids, written, conflicts), true)
      {
        var sha := order[i];
        var row := LookupAnchor(sha);
        RunNext(b, objects, order, i, start);
        i := i + 1;
        if row.Some? && row.value.commitId.Some? {
          var existing := b.fromHex(row.value.commitId.value);
          if existing.Some? {
            ids := ids[sha := existing.value];
          }
          continue;
        }
        var changeId := objects[sha].changeId;
        if row.Some? {
          var anchored := b.fromReverseHex(row.value.changeId);
          if anchored.None? {
            RunStops(b, objects, order, i, start);
            return Err(InvalidChangeId);
          }
          changeId := anchored.value;
        }
        var parentIds := CollectParents(ids, objects[sha].parents);
        if parentIds == [] {
          parentIds := [b.root];
        }
        var commit := NativeCommit(parentIds, changeId, objects[sha].message);
        var id := b.idOf(commit);
        native := native[id := commit];
        ids := ids[sha := id];
        SetAnchor(sha, b.reverseHex(changeId), b.hex(id));
        written := written + 1;
        conflicts := conflicts + objects[sha].conflicts;
      }
      assert order[..i] == order;
      r := Ok(Outcome(written, conflicts));
    }

    /** Reads the history below the heads and translates it. `known` are all
        commits the repository ever held; Git may have pruned some since. */
    method IngestBareRepo(b: Backend, objects: Objects, heads: seq<Sha>, ghost known: Objects) returns (r: Result<Outcome, IngestError>)
      requires b.Sound() && Acyclic(GraphOf(objects)) && Holds(known, objects)
      requires Faithful(b, known, anchors, native)
      modifies this
      ensures Faithful(b, known, anchors, native) && Preserves(old(anchors), anchors)
      ensures r == Err(MissingCommit) <==> exists c :: ReachedFrom(GraphOf(objects), heads, c) && c !in objects
      ensures r == Err(MissingCommit) ==> anchors == old(anchors) && native == old(native)
      ensures r != Err(MissingCommit) ==>
                (r.Ok? <==> forall s :: s in NewCommits(objects, heads, old(anchors)) && s in old(anchors) ==>
                              b.fromReverseHex(old(anchors)[s].changeId).Some?)
      ensures r.Ok? ==> forall c :: ReachedFrom(GraphOf(objects), heads, c) ==> Translated(anchors, c)
      ensures r.Ok? ==> forall s :: s in NewCommits(objects, heads, old(anchors)) ==>
                TakesChangeId(b, objects, old(anchors), anchors, native, s)
      ensures r.Ok? ==> r.value.commits == |NewCommits(objects, heads, old(anchors))|
      ensures r.Ok? ==> r.value.conflicts == |ConflictFiles(objects, NewCommits(objects, heads, old(anchors)))|
      ensures r.Ok? && NewCommits(objects, heads, old(anchors)) == {} ==>
                r.value == Outcome(0, 0) && anchors == old(anchors) && native == old(native)
    {
      var g := GraphOf(objects);
      var ok, order := ReadGitCommits(g, heads);
      if !ok {
        ghost var c :| ReachedFrom(g, heads, c) && c !in g;
        return Err(MissingCommit);
      }
      ghost var (a, n) := (anchors, native);
      assert forall s :: s in order ==> s in objects by {
        assert forall s :: s in order ==> s in g;
      }
      assert Unseen(a, order) == NewCommits(objects, heads, a);
      r := Translate(b, objects, order);
      ParentsFirstAgrees(known, objects, order);
      RunAgrees(b, known, objects, order, Start(a, n));
      RunKeeps(b, known, order, a, n);
      RunFails(b, objects, order, a, n);
      if r.Ok? {
        RunDone(b, known, objects, order, a, n);
      }
    }
  }

  lemma RunNext(b: Backend, objects: Objects, order: seq<Sha>, i: nat, p: Progress)
    requires (forall s :: s in order ==> s in objects) && i < |order| && Run(b, objects, order[..i], p).ok
    ensures var before := Run(b, objects, order[..i], p).p;
      Run(b, objects, order[..i + 1], p) ==
      match Step(b, objects, order[i], before)
      case None => RunResult(before, false)
      case Some(next) => RunResult(next, true)
  {
    assert order[..i + 1][..i] == order[..i];
  }

  /** An error at a prefix is the error of the whole loop. */
  lemma {:induction false} RunStops(b: Backend, objects: Objects, order: seq<Sha>, n: nat, p: Progress)
    requires (forall s :: s in order ==> s in objects) && n <= |order|
    ensures !Run(b, objects, order[..n], p).ok ==> Run(b, objects, order, p) == Run(b, objects, order[..n], p)
    decreases |order|
  {
    if n < |order| {
      assert order[..|order| - 1][..n] == order[..n];
      RunStops(b, objects, order[..|order| - 1], n, p);
    } else {
      assert order[..n] == order;
    }
  }

  method CollectParents(ids: map<Sha, CommitId>, parents: seq<Sha>) returns (found: seq<CommitId>)
    ensures found == KnownParents(ids, parents)
  {
    found := [];
    for i := 0 to |parents|
      invariant found == KnownParents(ids, parents[..i])
    {
      assert parents[..i + 1][..i] == parents[..i];
      if parents[i] in ids {
        found := found + [ids[parents[i]]];
      }
    }
    assert parents[..|parents|] == parents;
  }

  // ---- a backend that meets the assumptions ------------------------------------------

  /** Text that ends where it says. */
  function Quoted(s: string): string {
    if s == "" then "." else "-" + [s[0]] + Quoted(s[1..])
  }

  function QuotedAll(parts: seq<string>): string {
    if parts == [] then "." else "-" + Quoted(parts[0]) + QuotedAll(parts[1..])
  }

  lemma {:induction false} QuotedApart(a: string, x: string, b: string, y: string)
    requires Quoted(a) + x == Quoted(b) + y
    ensures a == b && x == y
    decreases |a|
  {
    var s := Quoted(a) + x;
    assert s[0] == Quoted(b)[0];
    if a == "" || b == "" {
      assert s[1..] == x && s[1..] == y;
    } else {
      assert s[1] == a[0] && s[1] == b[0];
      assert s[2..] == Quoted(a[1..]) + x && s[2..] == Quoted(b[1..]) + y;
      QuotedApart(a[1..], x, b[1..], y);
      assert a == [a[0]] + a[1..] && b == [b[0]] + b[1..];
    }
  }

  lemma QuotedAllSplit(a: seq<string>, x: string)
    requires a != []
    ensures QuotedAll(a) + x == "-" + (Quoted(a[0]) + (QuotedAll(a[1..]) + x))
  {
  }

  lemma SameTail(x: string, y: string)
    requires "-" + x == "-" + y
    ensures x == y
  {
    assert ("-" + x)[1..] == x && ("-" + y)[1..] == y;
  }

  lemma {:induction false} QuotedAllApart(a: seq<string>, x: string, b: seq<string>, y: string)
    requires QuotedAll(a) + x == QuotedAll(b) + y
    ensures a == b && x == y
    decreases |a|
  {
    assert (QuotedAll(a) + x)[0] == QuotedAll(b)[0];
    if a == [] || b == [] {
      assert (QuotedAll(a) + x)[1..] == x && (QuotedAll(b) + y)[1..] == y;
    } else {
      QuotedAllSplit(a, x);
      QuotedAllSplit(b, y);
      SameTail(Quoted(a[0]) + (QuotedAll(a[1..]) + x), Quoted(b[0]) + (QuotedAll(b[1..]) + y));
      QuotedApart(a[0], QuotedAll(a[1..]) + x, b[0], QuotedAll(b[1..]) + y);
      QuotedAllApart(a[1..], x, b[1..], y);
      assert a == [a[0]] + a[1..] && b == [b[0]] + b[1..];
    }
  }

  function QuotedCommit(c: NativeCommit): string {
    QuotedAll(c.parents) + (Quoted(c.changeId) + Quoted(c.message))
  }

  lemma QuotedCommitApart(a: NativeCommit, b: NativeCommit)
    requires QuotedCommit(a) == QuotedCommit(b)
    ensures a == b
  {
    QuotedAllApart(a.parents, Quoted(a.changeId) + Quoted(a.message), b.parents, Quoted(b.changeId) + Quoted(b.message));
    QuotedApart(a.changeId, Quoted(a.message), b.changeId, Quoted(b.message));
    assert Quoted(a.message) + "" == Quoted(a.message) && Quoted(b.message) + "" == Quoted(b.message);
    QuotedApart(a.message, "", b.message, "");
  }

  /** The assumptions on the backend can be met. */
  lemma SoundBackendExists()
    ensures exists b: Backend :: b.Sound()
  {
    var b := Backend(QuotedCommit, "", s => s, s => Some(s), s => s, s => Some(s));
    forall x, y | b.idOf(x) == b.idOf(y) ensures x == y { QuotedCommitApart(x, y); }
    assert b.Sound();
  }
}
