/** Merge requests of a repository are numbered 1, 2, 3, … without gaps. */
module MrNumbers {
  import opened Common
  import opened MetaTables
  import opened RepoRemoval
  import opened Renames
  import opened OrgRename

  /** Every number lies between one and the number of merge requests of its
      repository, and no two share one. */
  predicate Numbered(v: Reviews) {
    && UniqueNumbers(v)
    && forall m :: m in v.mrs ==> 1 <= v.mrs[m].number <= |MrsOf(v, v.mrs[m].repoId)|
  }

  function NumbersOf(v: Reviews, ids: set<int>): set<int>
    requires forall m :: m in ids ==> m in v.mrs
  {
    set m | m in ids :: v.mrs[m].number
  }

  lemma Pick<T>(s: set<T>) returns (x: T)
    requires s != {}
    ensures x in s
  {
    x :| x in s;
  }

  lemma {:induction false} NumbersCount(v: Reviews, r: string, ids: set<int>)
    requires UniqueNumbers(v) && forall m :: m in ids ==> m in v.mrs && v.mrs[m].repoId == r
    ensures |NumbersOf(v, ids)| == |ids|
  {
    if ids != {} {
      var m := Pick(ids);
      NumbersCount(v, r, ids - {m});
      assert NumbersOf(v, ids) == NumbersOf(v, ids - {m}) + {v.mrs[m].number};
    }
  }

  function Upto(k: nat): (s: set<int>)
    ensures |s| == k && forall n :: n in s <==> 1 <= n <= k
  {
    if k == 0 then {} else Upto(k - 1) + {k}
  }

  lemma FullSubset(a: set<int>, b: set<int>)
    requires a <= b && |a| == |b|
    ensures a == b
  {
    assert b == a + (b - a) && |b - a| == |b| - |a|;
  }

  /** The numbers in use are exactly 1 up to the number of merge requests. */
  lemma NumbersAreExactly(v: Reviews, r: string, n: int)
    requires Numbered(v)
    ensures NumberTaken(v, r, n) <==> 1 <= n <= |MrsOf(v, r)|
  {
    var ids := MrsOf(v, r);
    NumbersCount(v, r, ids);
    FullSubset(NumbersOf(v, ids), Upto(|ids|));
    if 1 <= n <= |ids| {
      assert n in NumbersOf(v, ids);
    }
    if NumberTaken(v, r, n) {
      var m :| m in v.mrs && v.mrs[m].repoId == r && v.mrs[m].number == n;
      assert m in ids;
    }
  }

  /** `top` is COALESCE(MAX(number), 0) over the merge requests `ids`. */
  ghost predicate IsMax(v: Reviews, ids: set<int>, top: int) {
    && (forall m :: m in ids ==> m in v.mrs && v.mrs[m].number <= top)
    && (ids == {} ==> top == 0)
    && (ids != {} ==> exists m :: m in ids && v.mrs[m].number == top)
  }

  lemma MaxIsCount(v: Reviews, r: string, top: int)
    requires Numbered(v) && IsMax(v, MrsOf(v, r), top)
    ensures top == |MrsOf(v, r)|
  {
    var ids := MrsOf(v, r);
    if ids != {} {
      var m :| m in ids && v.mrs[m].number == top;
      NumbersAreExactly(v, r, |ids|);
      var last :| last in v.mrs && v.mrs[last].repoId == r && v.mrs[last].number == |ids|;
      assert last in ids;
    }
  }

  lemma MaxMore(v: Reviews, ids: set<int>, top: int, m: int)
    requires IsMax(v, ids, top) && m in v.mrs
    ensures IsMax(v, ids + {m}, if ids == {} || v.mrs[m].number > top then v.mrs[m].number else top)
  {
    var next := if ids == {} || v.mrs[m].number > top then v.mrs[m].number else top;
    if next == top && ids != {} {
      var best :| best in ids && v.mrs[best].number == top;
      assert best in ids + {m};
    } else {
      assert m in ids + {m};
    }
  }

  method MaxNumber(v: Reviews, r: string) returns (top: int)
    ensures IsMax(v, MrsOf(v, r), top)
  {
    top := 0;
    var left := MrsOf(v, r);
    var first := true;
    ghost var done: set<int> := {};
    while left != {}
      invariant left !! done && left + done == MrsOf(v, r)
      invariant (first <==> done == {}) && IsMax(v, done, top)
      decreases |left|
    {
      ghost var some := Pick(left);
      var m: int :| m in left;
      OneLess(left, done, m);
      MaxMore(v, done, top, m);
      if first || v.mrs[m].number > top { top := v.mrs[m].number; }
      first, left, done := false, left - {m}, done + {m};
    }
    assert done == MrsOf(v, r);
  }

  // ---- what keeps the numbering --------------------------------------------

  lemma InsertNumbered(live: set<string>, v: Reviews, id: int, row: Mr)
    requires Numbered(v) && row.number == |MrsOf(v, row.repoId)| + 1
    requires ReviewEffect(live, v, InsertMr(id, row)).Some?
    ensures Numbered(ReviewEffect(live, v, InsertMr(id, row)).value)
  {
    var w := ReviewEffect(live, v, InsertMr(id, row)).value;
    UniqueNumbersKept(live, v, InsertMr(id, row));
    forall m | m in w.mrs
      ensures 1 <= w.mrs[m].number <= |MrsOf(w, w.mrs[m].repoId)|
    {
      InsertedMrs(v, w, id, row, w.mrs[m].repoId);
    }
  }

  lemma InsertedMrs(v: Reviews, w: Reviews, id: int, row: Mr, r: string)
    requires id !in v.mrs && w.mrs == v.mrs[id := row.(state := "open")]
    ensures MrsOf(w, r) == if r == row.repoId then MrsOf(v, r) + {id} else MrsOf(v, r)
    ensures |MrsOf(w, r)| == |MrsOf(v, r)| + if r == row.repoId then 1 else 0
  {
  }

  /** The numbers are free, so the insert of the next one fails only for a
      missing repository. */
  lemma NextIsFree(live: set<string>, v: Reviews, id: int, row: Mr)
    requires Numbered(v) && id !in v.mrs && row.number == |MrsOf(v, row.repoId)| + 1
    ensures ReviewEffect(live, v, InsertMr(id, row)).Some? <==> row.repoId in live
  {
    NumbersAreExactly(v, row.repoId, row.number);
  }

  lemma OtherWritesNumbered(live: set<string>, v: Reviews, s: ReviewWrite)
    requires Numbered(v) && !s.InsertMr? && ReviewEffect(live, v, s).Some?
    ensures Numbered(ReviewEffect(live, v, s).value)
  {
    var w := ReviewEffect(live, v, s).value;
    UniqueNumbersKept(live, v, s);
    forall m | m in w.mrs
      ensures 1 <= w.mrs[m].number <= |MrsOf(w, w.mrs[m].repoId)|
    {
      assert MrsOf(w, w.mrs[m].repoId) == MrsOf(v, v.mrs[m].repoId);
    }
  }

  lemma DropNumbered(v: Reviews, r: string)
    requires Numbered(v)
    ensures Numbered(DropMrs(v, MrsOf(v, r)))
  {
    var w := DropMrs(v, MrsOf(v, r));
    forall m | m in w.mrs
      ensures 1 <= w.mrs[m].number <= |MrsOf(w, w.mrs[m].repoId)|
    {
      assert MrsOf(w, w.mrs[m].repoId) == MrsOf(v, v.mrs[m].repoId);
    }
  }

  lemma MoveNumbered(live: set<string>, v: Reviews, ids: map<string, string>)
    requires Numbered(v) && ReviewKeys(live, v) && Injective(ids, live)
    ensures Numbered(MovedReviews(v, ids))
  {
    var w := MovedReviews(v, ids);
    forall m | m in w.mrs
      ensures 1 <= w.mrs[m].number <= |MrsOf(w, w.mrs[m].repoId)|
    {
      MrsFollow(live, v, ids, v.mrs[m].repoId);
    }
  }
}
