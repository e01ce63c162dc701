/** Walking history from a revision: a stack and a seen set, the time bounds
    that prune the walk, newest-first order, pages, and the change list. */
module CommitLog {
  import opened Common
  import opened CommitDag
  import Sorting

  datatype Commit = Commit(parents: seq<Sha>, time: int, changeId: string)
  type Store = map<Sha, Commit>

  // ---- the walk -----------------------------------------------------------

  /** The stack and the seen set after one turn, and the commit it listed. */
  datatype Turn = Turn(stack: seq<Sha>, seen: set<Sha>, listed: seq<Sha>)

  /** One turn of the loop, where `g` holds the commits that are listed and
      expanded. */
  function TakeTurn(g: Graph, stack: seq<Sha>, seen: set<Sha>): Turn
    requires stack != []
  {
    var id, rest := stack[|stack| - 1], stack[..|stack| - 1];
    if id in seen then Turn(rest, seen, [])
    else if id !in g then Turn(rest, seen + {id}, [])
    else Turn(rest + g[id], seen + {id}, [id])
  }

  lemma TurnShrinks(g: Graph, stack: seq<Sha>, seen: set<Sha>)
    requires stack != []
    ensures var t := TakeTurn(g, stack, seen);
      |g.Keys - t.seen| < |g.Keys - seen| || (|g.Keys - t.seen| == |g.Keys - seen| && |t.stack| < |stack|)
  {
    var id := stack[|stack| - 1];
    if id in g && id !in seen {
      assert g.Keys - seen == (g.Keys - (seen + {id})) + {id};
    } else {
      assert g.Keys - TakeTurn(g, stack, seen).seen == g.Keys - seen;
    }
  }

  datatype WalkResult = WalkResult(order: seq<Sha>, seen: set<Sha>)

  /** What the loop still lists, and all it will have seen. */
  function Walk(g: Graph, stack: seq<Sha>, seen: set<Sha>): WalkResult
    decreases |g.Keys - seen|, |stack|
  {
    if stack == [] then WalkResult([], seen)
    else
      var t := TakeTurn(g, stack, seen);
      TurnShrinks(g, stack, seen);
      var r := Walk(g, t.stack, t.seen);
      WalkResult(t.listed + r.order, r.seen)
  }

  /** A turn moves what it lists from what is still to come to what is done. */
  lemma WalkTurn(g: Graph, stack: seq<Sha>, seen: set<Sha>, done: seq<Sha>)
    requires stack != []
    ensures var t := TakeTurn(g, stack, seen);
      done + Walk(g, stack, seen).order == (done + t.listed) + Walk(g, t.stack, t.seen).order
  {
  }

  /** The walk is depth-first: all of what lies on top of the stack comes before
      all of the rest. */
  lemma {:induction false} WalkSplits(g: Graph, below: seq<Sha>, top: seq<Sha>, seen: set<Sha>)
    ensures var first := Walk(g, top, seen);
      var rest := Walk(g, below, first.seen);
      Walk(g, below + top, seen) == WalkResult(first.order + rest.order, rest.seen)
    decreases |g.Keys - seen|, |top|
  {
    if top == [] {
      assert below + top == below;
      assert [] + Walk(g, below, seen).order == Walk(g, below, seen).order;
    } else {
      var t := TakeTurn(g, top, seen);
      TurnShrinks(g, top, seen);
      TurnOnTop(g, below, top, seen);
      WalkSplits(g, below, t.stack, t.seen);
      var first := Walk(g, t.stack, t.seen);
      Reorder(t.listed, first.order, Walk(g, below, first.seen).order);
    }
  }

  lemma TurnOnTop(g: Graph, below: seq<Sha>, top: seq<Sha>, seen: set<Sha>)
    requires top != []
    ensures var t := TakeTurn(g, top, seen); TakeTurn(g, below + top, seen) == Turn(below + t.stack, t.seen, t.listed)
  {
    var id, rest := top[|top| - 1], top[..|top| - 1];
    assert (below + top)[..|below + top| - 1] == below + rest;
    if id !in seen && id in g { assert (below + rest) + g[id] == below + (rest + g[id]); }
  }

  lemma Reorder(a: seq<Sha>, b: seq<Sha>, c: seq<Sha>)
    ensures a + (b + c) == (a + b) + c
  {
  }

  /** From a commit not yet met: itself, then all it leads to through its parents,
      the last one first, then what was left before. */
  lemma DepthFirst(g: Graph, below: seq<Sha>, id: Sha, seen: set<Sha>)
    requires id in g && id !in seen
    ensures var deeper := Walk(g, g[id], seen + {id});
      var rest := Walk(g, below, deeper.seen);
      Walk(g, below + [id], seen) == WalkResult([id] + deeper.order + rest.order, rest.seen)
  {
    var stack := below + [id];
    assert stack[..|stack| - 1] == below;
    WalkSplits(g, below, g[id], seen + {id});
    var deeper := Walk(g, g[id], seen + {id});
    Reorder([id], deeper.order, Walk(g, below, deeper.seen).order);
  }

  /** Parents of a seen commit are seen or still on the stack. */
  ghost predicate Pending(g: Graph, stack: seq<Sha>, seen: set<Sha>) {
    forall c, m :: c in seen && c in g && m in g[c] ==> m in seen || m in stack
  }

  lemma TurnPending(g: Graph, stack: seq<Sha>, seen: set<Sha>)
    requires stack != [] && Pending(g, stack, seen)
    ensures var t := TakeTurn(g, stack, seen);
      Pending(g, t.stack, t.seen) && seen <= t.seen && forall m :: m in stack ==> m in t.stack || m in t.seen
  {
    var id, rest := stack[|stack| - 1], stack[..|stack| - 1];
    assert stack == rest + [id];
  }

  lemma {:induction false} WalkCloses(g: Graph, stack: seq<Sha>, seen: set<Sha>)
    requires Pending(g, stack, seen)
    ensures var r := Walk(g, stack, seen);
      && seen <= r.seen
      && (forall m :: m in stack ==> m in r.seen)
      && Pending(g, [], r.seen)
    decreases |g.Keys - seen|, |stack|
  {
    if stack != [] {
      var t := TakeTurn(g, stack, seen);
      TurnPending(g, stack, seen);
      TurnShrinks(g, stack, seen);
      WalkCloses(g, t.stack, t.seen);
    }
  }

  ghost predicate Distinct(s: seq<Sha>) {
    forall i, j :: 0 <= i < j < |s| ==> s[i] != s[j]
  }

  /** The order lists the listed commits newly seen, each once. */
  lemma {:induction false} WalkListsSeen(g: Graph, stack: seq<Sha>, seen: set<Sha>)
    ensures var r := Walk(g, stack, seen);
      && seen <= r.seen
      && Distinct(r.order)
      && (forall c :: c in r.order <==> c in r.seen && c !in seen && c in g)
    decreases |g.Keys - seen|, |stack|
  {
    if stack != [] {
      var t := TakeTurn(g, stack, seen);
      TurnShrinks(g, stack, seen);
      WalkListsSeen(g, t.stack, t.seen);
    }
  }

  lemma TurnReaches(g: Graph, stack: seq<Sha>, seen: set<Sha>, c: Sha)
    requires stack != []
    requires var t := TakeTurn(g, stack, seen); (c in t.seen && c !in seen) || ReachedFrom(g, t.stack, c)
    ensures ReachedFrom(g, stack, c)
  {
    var id, rest := stack[|stack| - 1], stack[..|stack| - 1];
    var t := TakeTurn(g, stack, seen);
    assert stack == rest + [id];
    ReachesSelf(g, id);
    if c in t.seen && c !in seen {
      assert c == id;
    } else {
      var h :| h in t.stack && Reaches(g, h, c);
      if id in g && h in g[id] {
        ReachesStep(g, id, h, c);
        assert id in stack;
      }
    }
  }

  /** Nothing is seen that the stack does not reach. */
  lemma {:induction false} WalkReaches(g: Graph, stack: seq<Sha>, seen: set<Sha>, c: Sha)
    requires c in Walk(g, stack, seen).seen && c !in seen
    ensures ReachedFrom(g, stack, c)
    decreases |g.Keys - seen|, |stack|
  {
    if stack != [] {
      var t := TakeTurn(g, stack, seen);
      TurnShrinks(g, stack, seen);
      if c !in t.seen {
        WalkReaches(g, t.stack, t.seen, c);
      }
      TurnReaches(g, stack, seen, c);
    }
  }

  /** The walk lists exactly the commits of `g` reached from the start, once each. */
  lemma WalkExact(g: Graph, starts: seq<Sha>)
    ensures var order := Walk(g, starts, {}).order;
      Distinct(order) && forall c :: c in order <==> c in g && ReachedFrom(g, starts, c)
  {
    var r := Walk(g, starts, {});
    WalkListsSeen(g, starts, {});
    WalkCloses(g, starts, {});
    forall c ensures c in r.seen <==> ReachedFrom(g, starts, c) {
      if c in r.seen { WalkReaches(g, starts, {}, c); }
      if ReachedFrom(g, starts, c) {
        var h :| h in starts && Reaches(g, h, c);
        var p :| IsPath(g, p) && p[0] == h && p[|p| - 1] == c;
        ClosedUnderReach(g, r.seen, p);
      }
    }
  }

  // ---- bounds -------------------------------------------------------------

  predicate Within(time: int, since: Option<int>, until: Option<int>) {
    && (since.Some? ==> time >= since.value)
    && (until.Some? ==> time <= until.value)
  }

  function AllParents(store: Store): Graph {
    map c | c in store :: store[c].parents
  }

  /** The commits the walk lists: found, not the root, inside the bounds. */
  function Visible(store: Store, root: Sha, since: Option<int>, until: Option<int>): Graph {
    map c | c in store && c != root && Within(store[c].time, since, until) :: store[c].parents
  }

  /** The virtual root ends every history. */
  ghost predicate RootEnds(store: Store, root: Sha) {
    root in store ==> store[root].parents == []
  }

  /** No commit older than the bound has a parent at or after it. */
  ghost predicate NoLateParent(store: Store, root: Sha, since: Option<int>) {
    since.Some? ==> forall c, m :: c in store && m in store && m != root ==> !LateParent(store, since.value, c, m)
  }

  predicate LateParent(store: Store, since: int, c: Sha, m: Sha)
    requires c in store && m in store
  {
    m in store[c].parents && store[c].time < since <= store[m].time
  }

  /** Then a path to a commit inside the bound stays inside, and off the root. */
  lemma {:induction false} PathStaysInside(store: Store, root: Sha, since: Option<int>, p: seq<Sha>)
    requires RootEnds(store, root) && NoLateParent(store, root, since) && IsPath(AllParents(store), p)
    requires p[|p| - 1] in store && p[|p| - 1] != root && Within(store[p[|p| - 1]].time, since, None)
    ensures forall i :: 0 <= i < |p| ==> p[i] in store && p[i] != root && Within(store[p[i]].time, since, None)
  {
    if |p| > 1 {
      assert IsPath(AllParents(store), p[1..]) by {
        assert forall i :: 0 <= i < |p[1..]| ==> p[1..][i] == p[i + 1];
      }
      PathStaysInside(store, root, since, p[1..]);
      assert p[1..][0] == p[1] && p[1] in store[p[0]].parents;
      assert since.Some? ==> !LateParent(store, since.value, p[0], p[1]);
      assert forall i :: 0 < i < |p| ==> p[i] == p[1..][i - 1];
    }
  }

  /** A walk restricted to visible commits is a walk. */
  lemma VisiblePath(store: Store, root: Sha, since: Option<int>, until: Option<int>, a: Sha, b: Sha)
    requires Reaches(Visible(store, root, since, until), a, b)
    ensures Reaches(AllParents(store), a, b)
  {
    var p :| IsPath(Visible(store, root, since, until), p) && p[0] == a && p[|p| - 1] == b;
    assert IsPath(AllParents(store), p);
  }

  /** With only a lower bound, nothing inside it is cut off. */
  lemma SincePath(store: Store, root: Sha, since: Option<int>, a: Sha, b: Sha)
    requires RootEnds(store, root) && NoLateParent(store, root, since)
    requires Reaches(AllParents(store), a, b) && b in store && b != root && Within(store[b].time, since, None)
    ensures Reaches(Visible(store, root, since, None), a, b)
  {
    var p :| IsPath(AllParents(store), p) && p[0] == a && p[|p| - 1] == b;
    PathStaysInside(store, root, since, p);
    var g := Visible(store, root, since, None);
    forall i | 0 <= i < |p| - 1
      ensures p[i] in g && p[i + 1] in g[p[i]]
    {
      assert p[i] in store && p[i + 1] in store[p[i]].parents;
    }
    assert IsPath(g, p);
  }

  /** The walk lists exactly the non-root ancestors of the start inside the bound. */
  ghost predicate ListsAncestors(store: Store, root: Sha, starts: seq<Sha>, since: Option<int>) {
    var order := Walk(Visible(store, root, since, None), starts, {}).order;
    && Distinct(order)
    && forall c :: c in order <==>
         c in store && c != root && Within(store[c].time, since, None) && ReachedFrom(AllParents(store), starts, c)
  }

  lemma SinceExact(store: Store, root: Sha, starts: seq<Sha>, since: Option<int>)
    requires RootEnds(store, root) && NoLateParent(store, root, since)
    ensures ListsAncestors(store, root, starts, since)
  {
    var g := Visible(store, root, since, None);
    WalkExact(g, starts);
    forall c | c in g
      ensures ReachedFrom(g, starts, c) <==> ReachedFrom(AllParents(store), starts, c)
    {
      if ReachedFrom(g, starts, c) {
        var h :| h in starts && Reaches(g, h, c);
        VisiblePath(store, root, since, None, h, c);
      }
      if ReachedFrom(AllParents(store), starts, c) {
        var h :| h in starts && Reaches(AllParents(store), h, c);
        SincePath(store, root, since, h, c);
      }
    }
  }

  /** Otherwise a walk from the older commit loses its parent, however new. */
  lemma LateParentLost(store: Store, root: Sha, since: int, c: Sha, m: Sha)
    requires c in store && m in store && m != root && LateParent(store, since, c, m)
    ensures !ListsAncestors(store, root, [c], Some(since))
  {
    assert IsPath(AllParents(store), [c, m]);
    assert c in [c] && Reaches(AllParents(store), c, m);
    var g := Visible(store, root, Some(since), None);
    WalkExact(g, [c]);
    assert c !in g && !ReachedFrom(g, [c], m);
  }

  /** Without an upper bound, the walk lists exactly the ancestors inside the
      bound, from every start, if and only if no commit older than the bound has a
      parent at or after it; with no bound at all there is no condition. */
  lemma SinceExactly(store: Store, root: Sha, since: Option<int>)
    requires RootEnds(store, root)
    ensures (forall starts :: ListsAncestors(store, root, starts, since)) <==> NoLateParent(store, root, since)
  {
    if NoLateParent(store, root, since) {
      forall starts ensures ListsAncestors(store, root, starts, since) { SinceExact(store, root, starts, since); }
    } else {
      var c, m :| c in store && m in store && m != root && LateParent(store, since.value, c, m);
      LateParentLost(store, root, since.value, c, m);
    }
  }

  // ---- order and pages ----------------------------------------------------

  function Newer(store: Store): (Sha, Sha) -> bool {
    (a: Sha, b: Sha) => Time(store, a) >= Time(store, b)
  }

  function Time(store: Store, c: Sha): int {
    if c in store then store[c].time else 0
  }

  lemma NewerIsPreorder(store: Store)
    ensures Sorting.TotalPreorder(Newer(store))
  {
  }

  function Page<T>(s: seq<T>, offset: nat, limit: nat): seq<T> {
    var from := if offset <= |s| then offset else |s|;
    var end := if offset + limit <= |s| then offset + limit else |s|;
    s[from..end]
  }

  /** A page starts `offset` entries in, and holds `limit` of them or all that are left. */
  lemma PageHolds<T>(s: seq<T>, offset: nat, limit: nat)
    ensures var left := if offset < |s| then |s| - offset else 0;
      |Page(s, offset, limit)| == (if left < limit then left else limit)
    ensures forall i :: 0 <= i < |Page(s, offset, limit)| ==> offset + i < |s| && Page(s, offset, limit)[i] == s[offset + i]
  {
  }

  /** All pages up to the k-th, one after the other. */
  function Pages<T>(s: seq<T>, limit: nat, k: nat): seq<T> {
    if k == 0 then [] else Pages(s, limit, k - 1) + Page(s, (k - 1) * limit, limit)
  }

  /** Consecutive pages tile the list: no commit twice, none left out. */
  lemma {:induction false} PagesTile<T>(s: seq<T>, limit: nat, k: nat)
    ensures Pages(s, limit, k) == Page(s, 0, k * limit)
    ensures k * limit >= |s| ==> Pages(s, limit, k) == s
  {
    if k > 0 {
      PagesTile(s, limit, k - 1);
      assert k * limit == (k - 1) * limit + limit;
    }
  }

  /** The whole log, before paging. */
  function Log(store: Store, root: Sha, starts: seq<Sha>, since: Option<int>, until: Option<int>): seq<Sha> {
    Sorting.Sorted(Newer(store), Walk(Visible(store, root, since, until), starts, {}).order)
  }

  /** A commit is shown when it is stored, not the root, and inside both bounds. */
  ghost predicate Shown(store: Store, root: Sha, since: Option<int>, until: Option<int>, c: Sha) {
    && c in store && c != root
    && (since.Some? ==> since.value <= store[c].time) && (until.Some? ==> store[c].time <= until.value)
  }

  /** A way from a start down parent edges, over shown commits only. */
  ghost predicate ShownPath(store: Store, root: Sha, starts: seq<Sha>, since: Option<int>, until: Option<int>, p: seq<Sha>) {
    && p != [] && p[0] in starts
    && (forall i :: 0 <= i < |p| ==> Shown(store, root, since, until, p[i]))
    && (forall i :: 0 < i < |p| ==> p[i] in store[p[i - 1]].parents)
  }

  /** The log, commit by commit: exactly those at the end of such a way, and each
      no older than the next. */
  lemma LogShows(store: Store, root: Sha, starts: seq<Sha>, since: Option<int>, until: Option<int>)
    ensures var log := Log(store, root, starts, since, until);
      && (forall c :: c in log <==> exists p :: ShownPath(store, root, starts, since, until, p) && p[|p| - 1] == c)
      && (forall i, j :: 0 <= i < j < |log| ==> log[i] != log[j])
      && (forall i, j :: 0 <= i < j < |log| ==> log[i] in store && log[j] in store && store[log[i]].time >= store[log[j]].time)
  {
    var log := Log(store, root, starts, since, until);
    LogExact(store, root, starts, since, until);
    forall c ensures c in log <==> exists p :: ShownPath(store, root, starts, since, until, p) && p[|p| - 1] == c {
      ShownExactly(store, root, starts, since, until, c);
    }
    forall i | 0 <= i < |log| ensures log[i] in store {
      assert log[i] in log && log[i] in Visible(store, root, since, until);
    }
    assert forall i, j :: 0 <= i < j < |log| ==> Time(store, log[i]) >= Time(store, log[j]) && log[i] != log[j];
  }

  lemma ShownExactly(store: Store, root: Sha, starts: seq<Sha>, since: Option<int>, until: Option<int>, c: Sha)
    ensures var g := Visible(store, root, since, until);
      c in g && ReachedFrom(g, starts, c) <==> exists p :: ShownPath(store, root, starts, since, until, p) && p[|p| - 1] == c
  {
    var g := Visible(store, root, since, until);
    assert forall x :: Shown(store, root, since, until, x) <==> x in g;
    if c in g && ReachedFrom(g, starts, c) {
      var h :| h in starts && Reaches(g, h, c);
      var p :| IsPath(g, p) && p[0] == h && p[|p| - 1] == c;
      forall i | 0 < i < |p| ensures p[i] in store[p[i - 1]].parents {
        assert p[i - 1 + 1] in g[p[i - 1]];
      }
      assert ShownPath(store, root, starts, since, until, p);
    }
    if p :| ShownPath(store, root, starts, since, until, p) && p[|p| - 1] == c {
      assert IsPath(g, p);
      assert Reaches(g, p[0], c);
    }
  }

  /** The log holds exactly what the walk found, once each, newest first;
      commits of one instant stay in walk order. */
  lemma LogExact(store: Store, root: Sha, starts: seq<Sha>, since: Option<int>, until: Option<int>)
    ensures var g := Visible(store, root, since, until);
      var log := Log(store, root, starts, since, until);
      && Distinct(log)
      && (forall c :: c in log <==> c in g && ReachedFrom(g, starts, c))
      && (forall i, j :: 0 <= i < j < |log| ==> Time(store, log[i]) >= Time(store, log[j]))
      && Sorting.StableSortOf(Newer(store), Walk(g, starts, {}).order, log)
  {
    var g := Visible(store, root, since, until);
    var order := Walk(g, starts, {}).order;
    var log := Log(store, root, starts, since, until);
    WalkExact(g, starts);
    NewerIsPreorder(store);
    Sorting.SortedIsStable(Newer(store), order);
    SameElements(order, log);
    assert forall i, j :: 0 <= i < j < |log| ==> Newer(store)(log[i], log[j]);
  }

  lemma SameElements(s: seq<Sha>, t: seq<Sha>)
    requires Distinct(s) && multiset(s) == multiset(t)
    ensures Distinct(t) && forall c :: c in s <==> c in t
  {
    forall c ensures c in s <==> c in t {
      assert c in s <==> c in multiset(s);
      assert c in t <==> c in multiset(t);
    }
    DistinctCounts(s);
    forall i, j | 0 <= i < j < |t|
      ensures t[i] != t[j]
    {
      if t[i] == t[j] { TwoOccurrences(t, i, j); }
    }
  }

  lemma TwoOccurrences(t: seq<Sha>, i: nat, j: nat)
    requires i < j < |t| && t[i] == t[j]
    ensures multiset(t)[t[j]] >= 2
  {
    assert t == t[..j] + [t[j]] + t[j + 1..];
    assert t[..j][i] == t[j] && t[j] in multiset(t[..j]);
  }

  lemma {:induction false} DistinctCounts(s: seq<Sha>)
    requires Distinct(s)
    ensures forall c :: multiset(s)[c] <= 1
  {
    if s != [] {
      var last := |s| - 1;
      DistinctCounts(s[..last]);
      assert s == s[..last] + [s[last]];
      assert s[last] !in s[..last];
      assert multiset(s) == multiset(s[..last]) + multiset{s[last]};
      assert s[last] in multiset(s[..last]) <==> s[last] in s[..last];
    }
  }

  // ---- the change list ----------------------------------------------------

  /** No earlier commit of the order has the change-id of the i-th. */
  ghost predicate IsFirst(store: Store, order: seq<Sha>, i: nat)
    requires i < |order| && forall c :: c in order ==> c in store
  {
    forall j :: 0 <= j < i ==> store[order[j]].changeId != store[order[i]].changeId
  }

  function ChangeIds(store: Store, order: seq<Sha>): set<string>
    requires forall c :: c in order ==> c in store
  {
    set c | c in order :: store[c].changeId
  }

  lemma ChangeIdsSnoc(store: Store, order: seq<Sha>, c: Sha)
    requires (forall x :: x in order ==> x in store) && c in store
    ensures ChangeIds(store, order + [c]) == ChangeIds(store, order) + {store[c].changeId}
  {
  }

  lemma FirstOfEachSnoc(store: Store, order: seq<Sha>, c: Sha)
    requires (forall x :: x in order ==> x in store) && c in store
    ensures FirstOfEach(store, order + [c])
         == FirstOfEach(store, order) + (if store[c].changeId in ChangeIds(store, order) then [] else [c])
  {
    assert (order + [c])[..|order|] == order;
  }

  /** The first commit of each change, in the order met. */
  function FirstOfEach(store: Store, order: seq<Sha>): seq<Sha>
    requires forall c :: c in order ==> c in store
    decreases |order|
  {
    if order == [] then []
    else
      var last := |order| - 1;
      var kept := FirstOfEach(store, order[..last]);
      if store[order[last]].changeId in ChangeIds(store, order[..last]) then kept else kept + [order[last]]
  }

  /** The i-th commit stands for its change when no earlier one does. */
  ghost predicate StandsFor(store: Store, order: seq<Sha>, c: Sha)
    requires forall x :: x in order ==> x in store
  {
    exists i :: 0 <= i < |order| && order[i] == c && IsFirst(store, order, i)
  }

  lemma StandsForSnoc(store: Store, order: seq<Sha>, x: Sha, c: Sha)
    requires (forall y :: y in order ==> y in store) && x in store
    ensures StandsFor(store, order + [x], c)
       <==> StandsFor(store, order, c) || (c == x && store[x].changeId !in ChangeIds(store, order))
  {
    var more := order + [x];
    forall i | 0 <= i < |order|
      ensures more[i] == order[i] && (IsFirst(store, more, i) <==> IsFirst(store, order, i))
    {
      assert forall j :: 0 <= j < i ==> more[j] == order[j];
    }
    assert forall j :: 0 <= j < |order| ==> more[j] == order[j];
    assert IsFirst(store, more, |order|) <==> store[x].changeId !in ChangeIds(store, order);
    assert more[|order|] == x;
  }

  /** A commit is listed exactly when it is the first with its change-id. */
  lemma {:induction false} FirstOfEachExact(store: Store, order: seq<Sha>, c: Sha)
    requires forall x :: x in order ==> x in store
    ensures c in FirstOfEach(store, order) <==> StandsFor(store, order, c)
    decreases |order|
  {
    if order != [] {
      var head, x := order[..|order| - 1], order[|order| - 1];
      FirstOfEachExact(store, head, c);
      StandsForSnoc(store, head, x, c);
      assert order == head + [x];
    }
  }

  /** Every change of the walk is listed, and none twice. */
  lemma {:induction false} FirstOfEachDistinct(store: Store, order: seq<Sha>)
    requires forall x :: x in order ==> x in store
    ensures var out := FirstOfEach(store, order);
      && (forall c :: c in out ==> c in order)
      && ChangeIds(store, out) == ChangeIds(store, order)
      && forall i, j :: 0 <= i < j < |out| ==> store[out[i]].changeId != store[out[j]].changeId
    decreases |order|
  {
    if order != [] {
      var last := |order| - 1;
      var head := order[..last];
      FirstOfEachDistinct(store, head);
      assert order == head + [order[last]];
      var kept := FirstOfEach(store, head);
      assert forall i :: 0 <= i < |kept| ==> store[kept[i]].changeId in ChangeIds(store, kept);
      ChangeIdsSnoc(store, head, order[last]);
      ChangeIdsSnoc(store, kept, order[last]);
    }
  }

  /** In the order in which the walk met them. */
  lemma {:induction false} FirstOfEachInOrder(store: Store, order: seq<Sha>, i: nat, j: nat)
    requires forall x :: x in order ==> x in store
    requires i < j < |FirstOfEach(store, order)|
    ensures exists a, b :: 0 <= a < b < |order| && order[a] == FirstOfEach(store, order)[i] && order[b] == FirstOfEach(store, order)[j]
    decreases |order|
  {
    var last := |order| - 1;
    var head, out := order[..last], FirstOfEach(store, order);
    var kept := FirstOfEach(store, head);
    if j < |kept| {
      FirstOfEachInOrder(store, head, i, j);
      var a, b :| 0 <= a < b < |head| && head[a] == kept[i] && head[b] == kept[j];
      assert order[a] == out[i] && order[b] == out[j];
    } else {
      FirstOfEachDistinct(store, head);
      assert kept[i] in head;
      var a :| 0 <= a < |head| && head[a] == kept[i];
      assert order[a] == out[i] && order[last] == out[j];
    }
  }

  /** The change list after the walk has met `done`. */
  ghost predicate Collected(store: Store, done: seq<Sha>, out: seq<Sha>, changes: set<string>) {
    && (forall c :: c in done ==> c in store)
    && out == FirstOfEach(store, done) && changes == ChangeIds(store, done)
  }

  lemma CollectedSnoc(store: Store, done: seq<Sha>, out: seq<Sha>, changes: set<string>, c: Sha)
    requires Collected(store, done, out, changes) && c in store
    ensures Collected(store, done + [c], if store[c].changeId in changes then out else out + [c], changes + {store[c].changeId})
  {
    FirstOfEachSnoc(store, done, c);
    ChangeIdsSnoc(store, done, c);
  }

  // ---- the code -----------------------------------------------------------

  /** A turn in the code's own terms: where the commit goes that was popped, and
      that the walk gets shorter. */
  lemma VisibleTurn(store: Store, root: Sha, since: Option<int>, until: Option<int>, stack: seq<Sha>, seen: set<Sha>, done: seq<Sha>)
    requires stack != []
    ensures var g, id, rest := Visible(store, root, since, until), stack[|stack| - 1], stack[..|stack| - 1];
      var more := id !in seen && id != root && id in store && Within(store[id].time, since, until);
      var nextStack := if more then rest + store[id].parents else rest;
      var nextSeen := if id in seen then seen else seen + {id};
      && done + Walk(g, stack, seen).order == (if more then done + [id] else done) + Walk(g, nextStack, nextSeen).order
      && (|g.Keys - nextSeen| < |g.Keys - seen| || (|g.Keys - nextSeen| == |g.Keys - seen| && |nextStack| < |stack|))
  {
    var g := Visible(store, root, since, until);
    TurnShrinks(g, stack, seen);
    WalkTurn(g, stack, seen, done);
    assert done + [] == done;
  }

  /** `starts` is the resolved revision, or every bookmark tip. */
  method CommitLog(store: Store, root: Sha, starts: seq<Sha>, since: Option<int>, until: Option<int>, offset: nat, limit: nat)
    returns (items: seq<Sha>, total: nat)
    ensures items == Page(Log(store, root, starts, since, until), offset, limit)
    ensures total == |Log(store, root, starts, since, until)|
    ensures var left := if offset < total then total - offset else 0; |items| == (if left < limit then left else limit)
    ensures forall i :: 0 <= i < |items| ==> items[i] == Log(store, root, starts, since, until)[offset + i]
  {
    ghost var g := Visible(store, root, since, until);
    var stack, commits, seen := starts, [], {};
    while stack != []
      invariant Walk(g, starts, {}).order == commits + Walk(g, stack, seen).order
      decreases |g.Keys - seen|, |stack|
    {
      VisibleTurn(store, root, since, until, stack, seen, commits);
      var id := stack[|stack| - 1];
      stack := stack[..|stack| - 1];
      if id in seen {
        continue;
      }
      seen := seen + {id};
      if id == root || id !in store || !Within(store[id].time, since, until) {
        continue;
      }
      stack := stack + store[id].parents;
      commits := commits + [id];
    }
    assert commits + [] == commits;
    commits := Sorting.Sorted(Newer(store), commits);
    assert commits == Log(store, root, starts, since, until);
    LogPage(store, root, starts, since, until, offset, limit);
    total := |commits|;
    items := Page(commits, offset, limit);
  }

  lemma LogPage(store: Store, root: Sha, starts: seq<Sha>, since: Option<int>, until: Option<int>, offset: nat, limit: nat)
    ensures var log := Log(store, root, starts, since, until);
      var items, left := Page(log, offset, limit), if offset < |log| then |log| - offset else 0;
      && |items| == (if left < limit then left else limit)
      && forall i :: 0 <= i < |items| ==> offset + i < |log| && items[i] == log[offset + i]
  {
    PageHolds(Log(store, root, starts, since, until), offset, limit);
  }

  /** Walks all ancestors, listing each change at its first commit. */
  method ListChanges(store: Store, root: Sha, start: Sha) returns (out: seq<Sha>)
    ensures forall c :: c in Walk(Visible(store, root, None, None), [start], {}).order ==> c in store
    ensures out == FirstOfEach(store, Walk(Visible(store, root, None, None), [start], {}).order)
  {
    ghost var g := Visible(store, root, None, None);
    var stack, seen, changes := [start], {}, {};
    out := [];
    ghost var done: seq<Sha> := [];
    while stack != []
      invariant Walk(g, [start], {}).order == done + Walk(g, stack, seen).order
      invariant Collected(store, done, out, changes)
      decreases |g.Keys - seen|, |stack|
    {
      VisibleTurn(store, root, None, None, stack, seen, done);
      var id := stack[|stack| - 1];
      stack := stack[..|stack| - 1];
      if id in seen {
        continue;
      }
      seen := seen + {id};
      if id == root || id !in store {
        continue;
      }
      out, changes := RecordChange(store, id, done, out, changes);
      done := done + [id];
      stack := stack + store[id].parents;
    }
    assert done + [] == done;
  }

  /** Lists the commit if its change-id is new. */
  method RecordChange(store: Store, id: Sha, ghost done: seq<Sha>, out: seq<Sha>, changes: set<string>)
    returns (listed: seq<Sha>, met: set<string>)
    requires id in store && Collected(store, done, out, changes)
    ensures Collected(store, done + [id], listed, met)
  {
    CollectedSnoc(store, done, out, changes, id);
    listed := out;
    if store[id].changeId !in changes {
      listed := listed + [id];
    }
    met := changes + {store[id].changeId};
  }
}
