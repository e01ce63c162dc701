/** Lane layout of the change graph: each commit is placed on a lane, and lanes
    are reserved for parents that are still to come. */
module LaneLayout {
  import opened Common

  datatype Node = Node(id: string, parents: seq<string>)
  datatype Layout = Layout(lanes: nat, rows: seq<nat>)

  /** Each lane holds the commit it waits for, or nothing. */
  type Lanes = seq<Option<string>>

  /** The first lane holding `x`. */
  function IndexOf(active: Lanes, x: Option<string>): (r: Option<nat>)
    ensures r.Some? ==> r.value < |active| && active[r.value] == x
    ensures r.None? <==> x !in active
  {
    if active == [] then None
    else if active[0] == x then Some(0)
    else match IndexOf(active[1..], x) case None => None case Some(i) => Some(i + 1)
  }

  datatype Placed = Placed(active: Lanes, lane: nat)

  /** The commit's own lane: the one reserved for it, else a free or new one. */
  function TakeLane(active: Lanes, id: string): (p: Placed)
    ensures p.lane < |p.active|
  {
    match IndexOf(active, Some(id))
    case Some(lane) => Placed(active[lane := None], lane)
    case None =>
      match IndexOf(active, None)
      case Some(lane) => Placed(active[lane := Some(id)], lane)
      case None => Placed(active + [Some(id)], |active|)
  }

  /** The first parent inherits the lane unless another lane waits for it. */
  function InheritLane(p: Placed, parent: string): Lanes
    requires p.lane < |p.active|
  {
    p.active[p.lane := if IndexOf(p.active, Some(parent)).None? then Some(parent) else None]
  }

  /** A later parent claims a free lane unless some lane waits for it. */
  function ClaimLane(active: Lanes, parent: string): Lanes {
    if IndexOf(active, Some(parent)).Some? then active
    else match IndexOf(active, None)
      case Some(free) => active[free := Some(parent)]
      case None => active + [Some(parent)]
  }

  function ClaimLanes(active: Lanes, parents: seq<string>): Lanes
    decreases |parents|
  {
    if parents == [] then active
    else ClaimLane(ClaimLanes(active, parents[..|parents| - 1]), parents[|parents| - 1])
  }

  function Place(active: Lanes, node: Node): Placed {
    var own := TakeLane(active, node.id);
    if node.parents == [] then own
    else Placed(ClaimLanes(InheritLane(own, node.parents[0]), node.parents[1..]), own.lane)
  }

  ghost predicate Stepped(before: Lanes, node: Node, after: Lanes, lane: nat) {
    Place(before, node) == Placed(after, lane)
  }

  /** A layout in progress: the lanes before each node and after the last, and
      the lane each node was placed on. */
  ghost predicate Drawn(nodes: seq<Node>, states: seq<Lanes>, rows: seq<nat>) {
    && |states| == |nodes| + 1 && |rows| == |nodes| && states[0] == []
    && forall n :: 0 <= n < |nodes| ==> Stepped(states[n], nodes[n], states[n + 1], rows[n])
  }

  function LaneCount(rows: seq<nat>): (n: nat)
    ensures n >= 1
    ensures forall i :: 0 <= i < |rows| ==> rows[i] < n
    ensures n == 1 || exists i :: 0 <= i < |rows| && n == rows[i] + 1
  {
    if rows == [] then 1
    else
      var rest := LaneCount(rows[..|rows| - 1]);
      if rows[|rows| - 1] + 1 > rest then rows[|rows| - 1] + 1 else rest
  }

  // ---- the code -----------------------------------------------------------

  method ComputeLayout(nodes: seq<Node>) returns (layout: Layout, ghost states: seq<Lanes>)
    ensures Drawn(nodes, states, layout.rows)
    ensures layout.lanes == LaneCount(layout.rows)
  {
    var active: Lanes := [];
    var rows: seq<nat> := [];
    states := [active];
    for n := 0 to |nodes|
      invariant Drawn(nodes[..n], states, rows) && active == states[n]
    {
      var lane;
      active, lane := PlaceNode(active, nodes[n]);
      assert forall k :: 0 <= k < n ==> nodes[..n + 1][k] == nodes[..n][k];
      rows := rows + [lane];
      states := states + [active];
    }
    assert nodes[..|nodes|] == nodes;
    layout := Layout(LaneCount(rows), rows);
  }

  /** The body of the outer loop. */
  method PlaceNode(start: Lanes, node: Node) returns (active: Lanes, lane: nat)
    ensures Stepped(start, node, active, lane)
  {
    active := start;
    var reserved := IndexOf(active, Some(node.id));
    if reserved.None? {
      var free := IndexOf(active, None);
      if free.None? {
        active := active + [Some(node.id)];
        lane := |active| - 1;
      } else {
        lane := free.value;
        active := active[lane := Some(node.id)];
      }
    } else {
      lane := reserved.value;
      active := active[lane := None];
    }
    active := ReserveParents(active, lane, node);
  }

  method ReserveParents(start: Lanes, lane: nat, node: Node) returns (active: Lanes)
    requires lane < |start|
    ensures active == if node.parents == [] then start
                      else ClaimLanes(InheritLane(Placed(start, lane), node.parents[0]), node.parents[1..])
  {
    active := start;
    for idx := 0 to |node.parents|
      invariant idx == 0 ==> active == start
      invariant idx > 0 ==> active == ClaimLanes(InheritLane(Placed(start, lane), node.parents[0]), node.parents[1..idx])
    {
      var pid := node.parents[idx];
      var existing := IndexOf(active, Some(pid));
      if idx == 0 {
        active := active[lane := if existing.None? then Some(pid) else None];
        assert node.parents[1..1] == [];
      } else {
        assert node.parents[1..idx + 1][..idx - 1] == node.parents[1..idx];
        if existing.None? {
          var free := IndexOf(active, None);
          if free.None? {
            active := active + [Some(pid)];
          } else {
            active := active[free.value := Some(pid)];
          }
        }
      }
    }
    if node.parents != [] {
      assert node.parents[1..|node.parents|] == node.parents[1..];
    }
  }

  // ---- the properties -----------------------------------------------------

  /** No commit is waited for, or sits, on two lanes. */
  ghost predicate Apart(active: Lanes) {
    forall i, j :: 0 <= i < j < |active| && active[i].Some? ==> active[i] != active[j]
  }

  /** Lanes that hold something keep it. */
  ghost predicate Keeps(before: Lanes, after: Lanes) {
    |before| <= |after| && forall i :: 0 <= i < |before| && before[i].Some? ==> after[i] == before[i]
  }

  lemma {:induction false} ClaimsKeep(active: Lanes, parents: seq<string>)
    requires Apart(active)
    ensures Apart(ClaimLanes(active, parents)) && Keeps(active, ClaimLanes(active, parents))
    ensures forall p :: p in parents ==> Some(p) in ClaimLanes(active, parents)
    decreases |parents|
  {
    if parents != [] {
      var front, last := parents[..|parents| - 1], parents[|parents| - 1];
      ClaimsKeep(active, front);
      var mid := ClaimLanes(active, front);
      ClaimKeeps(mid, last);
      assert parents == front + [last];
      forall p | p in parents ensures Some(p) in ClaimLane(mid, last) {
        if p in front { KeptMember(mid, ClaimLane(mid, last), Some(p)); }
      }
    }
  }

  lemma KeptMember(before: Lanes, after: Lanes, x: Option<string>)
    requires Keeps(before, after) && x.Some? && x in before
    ensures x in after
  {
    var i :| 0 <= i < |before| && before[i] == x;
    assert after[i] == x;
  }

  lemma ClaimKeeps(active: Lanes, parent: string)
    requires Apart(active)
    ensures Apart(ClaimLane(active, parent)) && Keeps(active, ClaimLane(active, parent)) && Some(parent) in ClaimLane(active, parent)
  {
    var after := ClaimLane(active, parent);
    if IndexOf(active, Some(parent)).None? {
      var at := match IndexOf(active, None) case Some(free) => free case None => |active|;
      assert after[at] == Some(parent);
    }
  }

  /** Placing a commit keeps ids apart, whatever the ids and parents are. */
  lemma PlaceApart(active: Lanes, node: Node)
    requires Apart(active)
    ensures Apart(Place(active, node).active)
  {
    var own := TakeLane(active, node.id);
    assert Apart(own.active);
    if node.parents != [] {
      assert Apart(InheritLane(own, node.parents[0]));
      ClaimsKeep(InheritLane(own, node.parents[0]), node.parents[1..]);
    }
  }

  /** At no point of any layout does an id occupy two lanes. */
  lemma {:induction false} NeverTwoLanes(nodes: seq<Node>, states: seq<Lanes>, rows: seq<nat>, n: nat)
    requires Drawn(nodes, states, rows) && n <= |nodes|
    ensures Apart(states[n])
  {
    if n > 0 {
      NeverTwoLanes(nodes, states, rows, n - 1);
      assert Stepped(states[n - 1], nodes[n - 1], states[n], rows[n - 1]);
      PlaceApart(states[n - 1], nodes[n - 1]);
    }
  }

  /** A lane that waits for another commit is not touched. */
  lemma PlaceKeepsReserved(active: Lanes, node: Node, lane: nat, p: string)
    requires Apart(active) && lane < |active| && active[lane] == Some(p) && node.id != p
    ensures var after := Place(active, node).active; lane < |after| && after[lane] == Some(p)
  {
    var own := TakeLane(active, node.id);
    assert own.lane != lane && own.active[lane] == Some(p);
    if node.parents != [] {
      var inherited := InheritLane(own, node.parents[0]);
      assert Apart(inherited) && inherited[lane] == Some(p);
      ClaimsKeep(inherited, node.parents[1..]);
    }
  }

  /** A commit some lane waits for is placed on that lane. */
  lemma ReservedLaneTaken(active: Lanes, node: Node, lane: nat)
    requires Apart(active) && lane < |active| && active[lane] == Some(node.id)
    ensures Place(active, node).lane == lane
  {
    assert IndexOf(active, Some(node.id)).Some?;
  }

  ghost predicate Waits(active: Lanes, lane: nat, p: string) {
    lane < |active| && active[lane] == Some(p)
  }

  /** A reserved lane stays reserved until the commit comes, and is then its
      lane: `j` is the first position at or after `i` with that commit. */
  lemma {:induction false} ReservationHolds(nodes: seq<Node>, states: seq<Lanes>, rows: seq<nat>, i: nat, j: nat, lane: nat)
    requires Drawn(nodes, states, rows) && i <= j < |nodes|
    requires forall k :: i <= k < j ==> nodes[k].id != nodes[j].id
    requires Waits(states[i], lane, nodes[j].id)
    ensures Waits(states[j], lane, nodes[j].id) && rows[j] == lane
    decreases j - i
  {
    NeverTwoLanes(nodes, states, rows, i);
    assert Stepped(states[i], nodes[i], states[i + 1], rows[i]);
    if i < j {
      PlaceKeepsReserved(states[i], nodes[i], lane, nodes[j].id);
      ReservationHolds(nodes, states, rows, i + 1, j, lane);
    } else {
      ReservedLaneTaken(states[i], nodes[i], lane);
    }
  }

  /** After a commit is placed, some lane waits for each of its parents; for an
      unreserved first parent it is the commit's own. */
  lemma ParentsReserved(active: Lanes, node: Node)
    requires Apart(active) && node.id !in node.parents
    ensures forall p :: p in node.parents ==> Some(p) in Place(active, node).active
    ensures node.parents != [] && Some(node.parents[0]) !in active ==>
              var placed := Place(active, node); placed.lane < |placed.active| && placed.active[placed.lane] == Some(node.parents[0])
  {
    if node.parents != [] {
      var own, first := TakeLane(active, node.id), node.parents[0];
      var inherited := InheritLane(own, first);
      assert Apart(own.active) && Apart(inherited);
      FirstParentReserved(active, node.id, first);
      ClaimsKeep(inherited, node.parents[1..]);
      KeptMember(inherited, ClaimLanes(inherited, node.parents[1..]), Some(first));
      assert node.parents == [first] + node.parents[1..];
    }
  }

  lemma FirstParentReserved(active: Lanes, id: string, first: string)
    requires id != first
    ensures var own := TakeLane(active, id);
      && Some(first) in InheritLane(own, first)
      && (Some(first) !in active ==> InheritLane(own, first)[own.lane] == Some(first))
  {
    var own := TakeLane(active, id);
    var inherited := InheritLane(own, first);
    assert own.active[own.lane] != Some(first);
    assert forall i :: 0 <= i < |own.active| && own.active[i] == Some(first) ==> inherited[i] == Some(first);
    assert inherited[own.lane] == Some(first) || IndexOf(own.active, Some(first)).Some?;
    if IndexOf(own.active, Some(first)).Some? {
      var k := IndexOf(own.active, Some(first)).value;
      assert inherited[k] == Some(first) && active[k] == Some(first);
    }
  }

  /** Every parent that comes later is placed on the lane reserved for it. */
  lemma ParentTakesReservedLane(nodes: seq<Node>, states: seq<Lanes>, rows: seq<nat>, i: nat, j: nat)
    requires Drawn(nodes, states, rows) && i < j < |nodes|
    requires nodes[j].id in nodes[i].parents && nodes[i].id !in nodes[i].parents
    requires forall k :: i < k < j ==> nodes[k].id != nodes[j].id
    ensures Waits(states[i + 1], rows[j], nodes[j].id)
  {
    NeverTwoLanes(nodes, states, rows, i);
    assert Stepped(states[i], nodes[i], states[i + 1], rows[i]);
    ParentsReserved(states[i], nodes[i]);
    var lane :| 0 <= lane < |states[i + 1]| && states[i + 1][lane] == Some(nodes[j].id);
    ReservationHolds(nodes, states, rows, i + 1, j, lane);
  }

  /** A first parent nobody waited for is drawn on its child's lane. */
  lemma FirstParentInherits(nodes: seq<Node>, states: seq<Lanes>, rows: seq<nat>, i: nat, j: nat)
    requires Drawn(nodes, states, rows) && i < j < |nodes|
    requires nodes[i].parents != [] && nodes[i].id !in nodes[i].parents && nodes[j].id == nodes[i].parents[0]
    requires forall k :: i < k < j ==> nodes[k].id != nodes[j].id
    requires Some(nodes[j].id) !in states[i]
    ensures rows[j] == rows[i]
  {
    NeverTwoLanes(nodes, states, rows, i);
    assert Stepped(states[i], nodes[i], states[i + 1], rows[i]);
    ParentsReserved(states[i], nodes[i]);
    ReservationHolds(nodes, states, rows, i + 1, j, rows[i]);
  }

  // ---- which lane, and what the lanes hold afterwards ----------------------------

  /** A commit nobody waits for goes on the lowest free lane, and on a new one only
      when there is no free one. */
  lemma LowestFreeLane(active: Lanes, node: Node)
    requires Some(node.id) !in active
    ensures var lane := Place(active, node).lane;
      && lane <= |active| && (lane < |active| ==> active[lane] == None)
      && forall k :: 0 <= k < lane ==> active[k].Some?
  {
    FirstIndex(active, None);
    if IndexOf(active, None).None? {
      forall k | 0 <= k < |active| ensures active[k].Some? { assert active[k] in active; }
    }
  }

  lemma {:induction false} FirstIndex(active: Lanes, x: Option<string>)
    ensures IndexOf(active, x).Some? ==> forall k :: 0 <= k < IndexOf(active, x).value ==> active[k] != x
  {
    if active != [] { FirstIndex(active[1..], x); }
  }

  /** A lane newly taken for a parent has no free lane below it. */
  ghost predicate FilledFromBelow(before: Lanes, after: Lanes) {
    forall k, l :: 0 <= k < l < |after| && (l >= |before| || after[l] != before[l]) ==> after[k].Some?
  }

  lemma {:induction false} ClaimsFillFromBelow(active: Lanes, parents: seq<string>)
    requires Apart(active)
    ensures FilledFromBelow(active, ClaimLanes(active, parents))
    decreases |parents|
  {
    if parents != [] {
      var front, last := parents[..|parents| - 1], parents[|parents| - 1];
      ClaimsFillFromBelow(active, front);
      ClaimsKeep(active, front);
      ClaimFillsFromBelow(active, ClaimLanes(active, front), last);
    }
  }

  lemma ClaimFillsFromBelow(active: Lanes, mid: Lanes, parent: string)
    requires Apart(mid) && Keeps(active, mid) && FilledFromBelow(active, mid)
    ensures FilledFromBelow(active, ClaimLane(mid, parent))
  {
    var after := ClaimLane(mid, parent);
    ClaimKeeps(mid, parent);
    if IndexOf(mid, Some(parent)).None? {
      var at := NewLane(mid, parent);
      assert after[at].Some?;
      forall k, l | 0 <= k < l < |after| && (l >= |active| || after[l] != active[l])
        ensures after[k].Some?
      {
        if l != at { assert after[l] == mid[l]; }
        if k != at { assert after[k] == mid[k]; }
      }
    } else {
      assert after == mid;
    }
  }

  lemma NewLane(mid: Lanes, parent: string) returns (at: nat)
    requires IndexOf(mid, Some(parent)).None?
    ensures var after := ClaimLane(mid, parent);
      && at < |after| && after[at] == Some(parent) && (forall k :: 0 <= k < |after| && k != at ==> k < |mid| && after[k] == mid[k])
      && forall k :: 0 <= k < at ==> mid[k].Some?
  {
    FirstIndex(mid, None);
    if IndexOf(mid, None).None? {
      at := |mid|;
      forall k | 0 <= k < |mid| ensures mid[k].Some? { assert mid[k] in mid; }
    } else {
      at := IndexOf(mid, None).value;
    }
  }

  /** Later parents take the lowest free lanes too: below a lane that one of them
      has newly taken none is free. */
  lemma LaterParentsLowest(active: Lanes, node: Node)
    requires Apart(active) && node.parents != []
    ensures FilledFromBelow(InheritLane(TakeLane(active, node.id), node.parents[0]), Place(active, node).active)
  {
    assert Apart(InheritLane(TakeLane(active, node.id), node.parents[0]));
    ClaimsFillFromBelow(InheritLane(TakeLane(active, node.id), node.parents[0]), node.parents[1..]);
  }

  /** After a commit is placed, lanes wait for what they waited for before, and for
      its parents, but no longer for the commit; only a commit that had no lane
      reserved and has no parents stays on its lane. */
  lemma HeldAfter(active: Lanes, node: Node, x: string)
    requires Apart(active) && node.id !in node.parents
    ensures Some(x) in Place(active, node).active <==>
      if x == node.id then node.parents == [] && Some(x) !in active else x in node.parents || Some(x) in active
  {
    var own := TakeLane(active, node.id);
    OwnHolds(active, node.id, x);
    if node.parents != [] {
      var first := node.parents[0];
      InheritHolds(own, node.id, first, x);
      assert Apart(own.active) && Apart(InheritLane(own, first));
      ClaimsHold(InheritLane(own, first), node.parents[1..], x);
      assert node.parents == [first] + node.parents[1..];
    }
  }

  lemma OwnHolds(active: Lanes, id: string, x: string)
    requires Apart(active)
    ensures var own := TakeLane(active, id).active;
      Some(x) in own <==> if x == id then Some(id) !in active else Some(x) in active
    ensures var own := TakeLane(active, id); own.active[own.lane] == None || own.active[own.lane] == Some(id)
  {
    var own := TakeLane(active, id);
    if Some(x) in active && x != id {
      var k :| 0 <= k < |active| && active[k] == Some(x);
      assert own.active[k] == Some(x);
    }
    if Some(x) in own.active && x != id {
      var k :| 0 <= k < |own.active| && own.active[k] == Some(x);
      assert k < |active| && active[k] == Some(x);
    }
    if Some(id) !in active { assert own.active[own.lane] == Some(id); }
  }

  lemma InheritHolds(own: Placed, id: string, first: string, x: string)
    requires own.lane < |own.active| && Apart(own.active) && id != first
    requires own.active[own.lane] == None || own.active[own.lane] == Some(id)
    ensures Some(x) in InheritLane(own, first) <==> x == first || (Some(x) in own.active && (x != id || own.active[own.lane] != Some(id)))
  {
    var after := InheritLane(own, first);
    if x != first && Some(x) in own.active && (x != id || own.active[own.lane] != Some(id)) {
      var k :| 0 <= k < |own.active| && own.active[k] == Some(x);
      assert after[k] == Some(x);
    }
    if x == first {
      if Some(first) in own.active {
        var k :| 0 <= k < |own.active| && own.active[k] == Some(first);
        assert after[k] == Some(first);
      } else {
        assert after[own.lane] == Some(first);
      }
    }
    if Some(x) in after && x != first {
      var k :| 0 <= k < |after| && after[k] == Some(x);
      assert own.active[k] == Some(x);
    }
  }

  lemma {:induction false} ClaimsHold(active: Lanes, parents: seq<string>, x: string)
    requires Apart(active)
    ensures Some(x) in ClaimLanes(active, parents) <==> x in parents || Some(x) in active
    decreases |parents|
  {
    if parents != [] {
      var front, last := parents[..|parents| - 1], parents[|parents| - 1];
      ClaimsHold(active, front, x);
      ClaimsKeep(active, front);
      ClaimHolds(ClaimLanes(active, front), last, x);
      assert parents == front + [last];
    }
  }

  lemma ClaimHolds(active: Lanes, parent: string, x: string)
    requires Apart(active)
    ensures Some(x) in ClaimLane(active, parent) <==> x == parent || Some(x) in active
  {
    ClaimKeeps(active, parent);
    if Some(x) in active { KeptMember(active, ClaimLane(active, parent), Some(x)); }
    if Some(x) in ClaimLane(active, parent) && x != parent {
      var k :| 0 <= k < |ClaimLane(active, parent)| && ClaimLane(active, parent)[k] == Some(x);
      assert k < |active| && active[k] == Some(x);
    }
  }
}
