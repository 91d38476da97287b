/** Clustering hides nothing that can be seen, and loses nothing. */
module ClusteringTheorems {
  import opened SysmlModel
  import opened Containment
  import opened Clustering

  /** What is in view is in the expanded view. */
  lemma ViewIsExpanded(r: Rect, viewport: Rect)
    requires viewport.width >= 0.0 && viewport.height >= 0.0 && Intersect(r, viewport)
    ensures Intersect(r, ExpandRect(viewport, ViewportMarginFactor))
  {
  }

  lemma {:induction false} AwayIsOfSome(links: set<Edge>, clusters: seq<Cluster>, id: Id)
    ensures id in Away(links, clusters) <==> exists c :: c in clusters && id in Members(links, c.subsystem)
    decreases |clusters|
  {
    hide Members;
    if clusters != [] {
      var init, last := clusters[..|clusters| - 1], clusters[|clusters| - 1];
      AwayIsOfSome(links, init, id);
      assert clusters == init + [last];
    }
  }

  /** A node in view, or within sight of it, is never collapsed, whatever the edges, cycles included. */
  lemma NothingVisibleIsHidden(nodes: seq<FlowNode>, links: set<Edge>, viewport: Rect, clusters: seq<Cluster>,
                               n: FlowNode)
    requires forall c :: c in clusters ==> Collapsed(nodes, links, viewport, c)
    requires n in nodes && NodesById(nodes)[n.id] == n
    ensures Intersect(n.rect, ExpandRect(viewport, ViewportMarginFactor)) ==> n in Kept(nodes, Away(links, clusters))
    ensures viewport.width >= 0.0 && viewport.height >= 0.0 && Intersect(n.rect, viewport) ==>
            n in Kept(nodes, Away(links, clusters))
  {
    hide Members, TopLevel, Intersect, ExpandRect, Encloses, ClampToViewportEdge;
    if viewport.width >= 0.0 && viewport.height >= 0.0 && Intersect(n.rect, viewport) {
      ViewIsExpanded(n.rect, viewport);
    }
    AwayIsOfSome(links, clusters, n.id);
    if Intersect(n.rect, ExpandRect(viewport, ViewportMarginFactor)) {
      forall c | c in clusters
        ensures n.id !in Members(links, c.subsystem)
      {
        if n.id in Members(links, c.subsystem) {
          assert n.rect in MemberRects(nodes, links, c.subsystem);
          LargerMeetsToo(c.bbox, n.rect, ExpandRect(viewport, ViewportMarginFactor));
        }
      }
    }
  }

  // ----- Counting -----

  /** Each node is the only one under its id. */
  ghost predicate OwnId(nodes: seq<FlowNode>) {
    forall i, j :: 0 <= i < j < |nodes| ==> nodes[i].id != nodes[j].id
  }

  function NodeIds(nodes: seq<FlowNode>): set<Id> {
    set n | n in nodes :: n.id
  }

  lemma SizeOneMore(ids: set<Id>, x: Id, away: set<Id>)
    requires x !in ids
    ensures |(ids + {x}) * away| == |ids * away| + if x in away then 1 else 0
  {
    assert (ids + {x}) * away == (ids * away) + if x in away then {x} else {};
  }

  lemma NodeIdsOneMore(nodes: seq<FlowNode>)
    requires nodes != [] && OwnId(nodes)
    ensures var init, last := nodes[..|nodes| - 1], nodes[|nodes| - 1];
            OwnId(init) && NodeIds(nodes) == NodeIds(init) + {last.id} && last.id !in NodeIds(init)
  {
    assert nodes == nodes[..|nodes| - 1] + [nodes[|nodes| - 1]];
  }

  lemma {:induction false} KeptCount(nodes: seq<FlowNode>, away: set<Id>)
    requires OwnId(nodes)
    ensures |Kept(nodes, away)| + |NodeIds(nodes) * away| == |nodes|
  {
    hide OwnId;
    if nodes == [] {
      assert NodeIds(nodes) * away == {};
    } else {
      var init, last := nodes[..|nodes| - 1], nodes[|nodes| - 1];
      NodeIdsOneMore(nodes);
      KeptCount(init, away);
      SizeOneMore(NodeIds(init), last.id, away);
    }
  }

  function CountOf(clusters: seq<Cluster>): nat {
    if clusters == [] then 0 else CountOf(clusters[..|clusters| - 1]) + clusters[|clusters| - 1].count
  }

  /** A walk from a top-level element never meets one from another, where each has one parent. */
  lemma {:induction false} SameTop(nodes: seq<FlowNode>, links: set<Edge>, a: seq<Id>, b: seq<Id>)
    requires SingleParent(links) && Path(links, a) && Path(links, b) && a[|a| - 1] == b[|b| - 1]
    requires TopLevel(nodes, links, a[0]) && TopLevel(nodes, links, b[0])
    ensures a[0] == b[0]
    decreases |a|
  {
    hide TopLevel, SingleParent;
    if |a| > 1 && |b| > 1 {
      LastOfPath(links, a);
      LastOfPath(links, b);
      OneParent(links, a[|a| - 2], b[|b| - 2], a[|a| - 1]);
      SameTop(nodes, links, a[..|a| - 1], b[..|b| - 1]);
    } else if |a| > 1 {
      NoTopBelow(nodes, links, a);
    } else if |b| > 1 {
      NoTopBelow(nodes, links, b);
    }
  }

  /** A walk down of any length, none included. */
  ghost predicate Path(links: set<Edge>, walk: seq<Id>) {
    walk != [] && forall i :: 0 <= i < |walk| - 1 ==> Joined(links, walk[i], walk[i + 1])
  }

  lemma LastOfPath(links: set<Edge>, walk: seq<Id>)
    requires Path(links, walk) && |walk| > 1
    ensures Joined(links, walk[|walk| - 2], walk[|walk| - 1]) && Path(links, walk[..|walk| - 1])
  {
    var k := |walk| - 2;
    assert Joined(links, walk[k], walk[k + 1]);
    var init := walk[..|walk| - 1];
    forall i | 0 <= i < |init| - 1
      ensures Joined(links, init[i], init[i + 1])
    {
      assert Joined(links, walk[i], walk[i + 1]);
    }
  }

  lemma OneParent(links: set<Edge>, p: Id, q: Id, x: Id)
    requires SingleParent(links) && Joined(links, p, x) && Joined(links, q, x)
    ensures p == q
  {
    assert Edge(p, x, Contains) in links && Edge(q, x, Contains) in links;
  }

  /** No walk from a top-level element leads down to a top-level element. */
  lemma NoTopBelow(nodes: seq<FlowNode>, links: set<Edge>, walk: seq<Id>)
    requires SingleParent(links) && Path(links, walk) && |walk| > 1 && TopLevel(nodes, links, walk[0])
    ensures !TopLevel(nodes, links, walk[|walk| - 1])
  {
    hide SingleParent, Joined;
    var top, p := walk[|walk| - 1], walk[|walk| - 2];
    var above :| above in nodes && !HasParent(links, above.id) && Joined(links, above.id, walk[0]);
    JoinedHasParent(links, above.id, walk[0]);
    LastOfPath(links, walk);
    if |walk| > 2 {
      LastOfPath(links, walk[..|walk| - 1]);
      JoinedHasParent(links, walk[|walk| - 3], p);
    }
    forall n | n in nodes && !HasParent(links, n.id)
      ensures !Joined(links, n.id, top)
    {
      if Joined(links, n.id, top) {
        OneParent(links, n.id, p, top);
      }
    }
  }

  lemma JoinedHasParent(links: set<Edge>, p: Id, x: Id)
    requires Joined(links, p, x)
    ensures HasParent(links, x)
  {
    assert Edge(p, x, Contains) in links;
  }

  lemma MemberHasPath(links: set<Edge>, subsystem: Id, x: Id) returns (walk: seq<Id>)
    requires x in Members(links, subsystem)
    ensures Path(links, walk) && walk[0] == subsystem && walk[|walk| - 1] == x
  {
    walk :| Descent(Followable(links), walk) && walk[0] == subsystem && walk[|walk| - 1] == x;
    forall i | 0 <= i < |walk| - 1
      ensures Joined(links, walk[i], walk[i + 1])
    {
      assert Joined(Followable(links), walk[i], walk[i + 1]);
    }
  }

  lemma ClustersApart(nodes: seq<FlowNode>, links: set<Edge>, s: Id, t: Id)
    requires SingleParent(links) && TopLevel(nodes, links, s) && TopLevel(nodes, links, t) && s != t
    ensures Members(links, s) !! Members(links, t)
  {
    hide Members, TopLevel, SingleParent, Joined;
    forall x | x in Members(links, s)
      ensures x !in Members(links, t)
    {
      if x in Members(links, t) {
        var a := MemberHasPath(links, s, x);
        var b := MemberHasPath(links, t, x);
        SameTop(nodes, links, a, b);
      }
    }
  }

  lemma CollapsedFacts(nodes: seq<FlowNode>, links: set<Edge>, viewport: Rect, c: Cluster)
    requires Collapsed(nodes, links, viewport, c)
    ensures TopLevel(nodes, links, c.subsystem) && c.count == |Members(links, c.subsystem)|
  {
  }

  lemma {:induction false} AwayCount(nodes: seq<FlowNode>, links: set<Edge>, viewport: Rect, clusters: seq<Cluster>)
    requires SingleParent(links) && Distinct(Subsystems(clusters))
    requires forall c :: c in clusters ==> Collapsed(nodes, links, viewport, c)
    ensures |Away(links, clusters)| == CountOf(clusters)
    decreases |clusters|
  {
    hide TopLevel, SingleParent, Members, Collapsed, Distinct, Subsystems;
    if clusters != [] {
      var init, last := clusters[..|clusters| - 1], clusters[|clusters| - 1];
      OthersAreDistinct(clusters);
      AwayCount(nodes, links, viewport, init);
      CollapsedFacts(nodes, links, viewport, last);
      LastIsApart(nodes, links, viewport, init, last);
    }
  }

  lemma LastIsApart(nodes: seq<FlowNode>, links: set<Edge>, viewport: Rect, init: seq<Cluster>, last: Cluster)
    requires SingleParent(links) && TopLevel(nodes, links, last.subsystem)
    requires forall c :: c in init ==> Collapsed(nodes, links, viewport, c) && c.subsystem != last.subsystem
    ensures Away(links, init) !! Members(links, last.subsystem)
  {
    hide TopLevel, SingleParent, Members, Collapsed;
    var away := Away(links, init);
    forall id | id in away
      ensures id !in Members(links, last.subsystem)
    {
      AwayIsOfSome(links, init, id);
      var c :| c in init && id in Members(links, c.subsystem);
      CollapsedFacts(nodes, links, viewport, c);
      ClustersApart(nodes, links, c.subsystem, last.subsystem);
    }
  }

  lemma OthersAreDistinct(clusters: seq<Cluster>)
    requires clusters != [] && Distinct(Subsystems(clusters))
    ensures var init := clusters[..|clusters| - 1];
            Distinct(Subsystems(init)) && forall c :: c in init ==> c.subsystem != clusters[|clusters| - 1].subsystem
  {
    var init, ids := clusters[..|clusters| - 1], Subsystems(clusters);
    assert Subsystems(init) == ids[..|clusters| - 1];
    forall c | c in init
      ensures c.subsystem != clusters[|clusters| - 1].subsystem
    {
      var i :| 0 <= i < |init| && init[i] == c;
      assert ids[i] != ids[|clusters| - 1];
    }
  }

  lemma {:induction false} AwayAreTargets(links: set<Edge>, clusters: seq<Cluster>)
    ensures forall id :: id in Away(links, clusters) ==> exists e :: e in links && e.target == id
    decreases |clusters|
  {
    hide Members;
    if clusters != [] {
      AwayAreTargets(links, clusters[..|clusters| - 1]);
      var last := clusters[|clusters| - 1].subsystem;
      var members := Members(links, last);
      forall id | id in members
        ensures exists e :: e in links && e.target == id
      {
        MemberIsTarget(links, last, id);
      }
    }
  }

  lemma MemberIsTarget(links: set<Edge>, from: Id, id: Id)
    requires id in Members(links, from)
    ensures exists e :: e in links && e.target == id
  {
    BelowContainsTarget(Followable(links), from, id);
  }

  /** Where no element has two parents, every node is either still shown or counted in just one cluster. */
  lemma NothingIsLost(nodes: seq<FlowNode>, links: set<Edge>, viewport: Rect, clusters: seq<Cluster>)
    requires OwnId(nodes) && SingleParent(links) && forall e :: e in links ==> e.target in NodeIds(nodes)
    requires Distinct(Subsystems(clusters)) && forall c :: c in clusters ==> Collapsed(nodes, links, viewport, c)
    ensures |Kept(nodes, Away(links, clusters))| + CountOf(clusters) == |nodes|
  {
    hide TopLevel, SingleParent, IsBounds, Intersect, Members, ClampToViewportEdge, MemberRects, OwnId, NodeIds,
         Collapsed;
    var away := Away(links, clusters);
    KeptCount(nodes, away);
    AwayCount(nodes, links, viewport, clusters);
    AwayAreTargets(links, clusters);
    assert NodeIds(nodes) * away == away;
  }

  // ----- Geometry and order -----

  predicate Inside(r: Rect, p: Point) {
    r.x < p.x < r.x + r.width && r.y < p.y < r.y + r.height
  }

  /** Two rectangles meet just if some point lies inside both; touching sides do not count. */
  lemma MeetIff(a: Rect, b: Rect)
    requires a.width > 0.0 && a.height > 0.0 && b.width > 0.0 && b.height > 0.0
    ensures Intersect(a, b) <==> exists p :: Inside(a, p) && Inside(b, p)
  {
    if Intersect(a, b) {
      var left, right := Max(a.x, b.x), Min(a.x + a.width, b.x + b.width);
      var top, bottom := Max(a.y, b.y), Min(a.y + a.height, b.y + b.height);
      var p := Point((left + right) / 2.0, (top + bottom) / 2.0);
      assert Inside(a, p) && Inside(b, p);
    }
  }

  function Moved(r: Rect, move: Point): Rect {
    Rect(r.x + move.x, r.y + move.y, r.width, r.height)
  }

  /** No farther than the view is wide and high, and never more than three thousand units. */
  predicate WithinReach(move: Point, view: Rect) {
    && -3000.0 <= move.x <= 3000.0 && -view.width <= move.x <= view.width
    && -3000.0 <= move.y <= 3000.0 && -view.height <= move.y <= view.height
  }

  /** A way to move along one axis, from between two bounds. */
  lemma StepBetween(low: real, high: real, reach: real) returns (d: real)
    requires low < high && low < reach && -reach < high && reach >= 0.0
    ensures low < d < high && -reach <= d <= reach
  {
    var least, most := Max(low, -reach), Min(high, reach);
    d := (least + most) / 2.0;
  }

  /** What meets the expanded view is what, moved within reach, would meet the view. */
  lemma ExpandedIff(r: Rect, view: Rect)
    requires r.width >= 0.0 && r.height >= 0.0 && view.width > 0.0 && view.height > 0.0
    ensures Intersect(r, ExpandRect(view, ViewportMarginFactor)) <==>
            exists move: Point :: WithinReach(move, view) && Intersect(Moved(r, move), view)
  {
    if Intersect(r, ExpandRect(view, ViewportMarginFactor)) {
      var dx := StepBetween(view.x - r.x - r.width, view.x + view.width - r.x, Min(view.width, 3000.0));
      var dy := StepBetween(view.y - r.y - r.height, view.y + view.height - r.y, Min(view.height, 3000.0));
      assert WithinReach(Point(dx, dy), view) && Intersect(Moved(r, Point(dx, dy)), view);
    }
  }

  /** Of several nodes under one id the last counts. */
  lemma {:induction false} LastNodeCounts(nodes: seq<FlowNode>, i: nat)
    requires i < |nodes| && forall j :: i < j < |nodes| ==> nodes[j].id != nodes[i].id
    ensures nodes[i].id in NodesById(nodes) && NodesById(nodes)[nodes[i].id] == nodes[i]
  {
    if i < |nodes| - 1 {
      LastNodeCounts(nodes[..|nodes| - 1], i);
    }
  }

  /** A node is kept as it is, or left out. */
  lemma KeptOrNot(nodes: seq<FlowNode>, n: FlowNode, away: set<Id>)
    ensures Kept(nodes + [n], away) == Kept(nodes, away) + if n.id in away then [] else [n]
  {
    assert (nodes + [n])[..|nodes|] == nodes;
  }

  lemma NoneKept(away: set<Id>)
    ensures Kept([], away) == []
  {
  }

  /** The nodes kept stay in the order they were in. */
  lemma {:induction false} KeptInOrder(a: seq<FlowNode>, b: seq<FlowNode>, away: set<Id>)
    ensures Kept(a + b, away) == Kept(a, away) + Kept(b, away)
    decreases |b|
  {
    hide Kept;
    if b == [] {
      assert a + b == a;
      NoneKept(away);
    } else {
      var init, last := b[..|b| - 1], b[|b| - 1];
      KeptInOrder(a, init, away);
      KeptOrNot(a + init, last, away);
      KeptOrNot(init, last, away);
      assert b == init + [last];
      assert a + b == (a + init) + [last];
    }
  }
}
