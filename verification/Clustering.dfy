/** The canvas collapses each subsystem that lies outside the view into one node. */
module Clustering {
  import opened SysmlModel
  import opened Containment
  import opened GraphStore

  // ----- Geometry; rounding is not part of this model -----

  datatype Rect = Rect(x: real, y: real, width: real, height: real)

  datatype Point = Point(x: real, y: real)

  const ViewportMarginFactor: real := 1.0
  const MaxMarginUnits: real := 3000.0
  const NodeWidth: real := 220.0
  const NodeHeight: real := 92.0

  function Min(a: real, b: real): real { if a < b then a else b }

  function Max(a: real, b: real): real { if a > b then a else b }

  function ExpandRect(r: Rect, marginFactor: real): Rect {
    var marginX := Min(r.width * marginFactor, MaxMarginUnits);
    var marginY := Min(r.height * marginFactor, MaxMarginUnits);
    Rect(r.x - marginX, r.y - marginY, r.width + 2.0 * marginX, r.height + 2.0 * marginY)
  }

  predicate Intersect(a: Rect, b: Rect) {
    a.x < b.x + b.width && a.x + a.width > b.x && a.y < b.y + b.height && a.y + a.height > b.y
  }

  predicate Encloses(outer: Rect, inner: Rect) {
    && outer.x <= inner.x && inner.x + inner.width <= outer.x + outer.width
    && outer.y <= inner.y && inner.y + inner.height <= outer.y + outer.height
  }

  function ClampToViewportEdge(bbox: Rect, viewport: Rect): Point {
    var centerX := bbox.x + bbox.width / 2.0;
    var centerY := bbox.y + bbox.height / 2.0;
    var insetX := Min(viewport.width / 2.0, NodeWidth / 2.0 + 24.0);
    var insetY := Min(viewport.height / 2.0, NodeHeight / 2.0 + 24.0);
    var clampedX := Min(viewport.x + viewport.width - insetX, Max(viewport.x + insetX, centerX));
    var clampedY := Min(viewport.y + viewport.height - insetY, Max(viewport.y + insetY, centerY));
    Point(clampedX - NodeWidth / 2.0, clampedY - NodeHeight / 2.0)
  }

  /** A placeholder's centre lies in the view, and is its subsystem's own where that lies well inside. */
  lemma PlaceholderIsInView(bbox: Rect, viewport: Rect)
    requires viewport.width >= 0.0 && viewport.height >= 0.0
    ensures var p := ClampToViewportEdge(bbox, viewport);
            && viewport.x <= p.x + NodeWidth / 2.0 <= viewport.x + viewport.width
            && viewport.y <= p.y + NodeHeight / 2.0 <= viewport.y + viewport.height
    ensures var centerX := bbox.x + bbox.width / 2.0;
            var insetX := Min(viewport.width / 2.0, NodeWidth / 2.0 + 24.0);
            viewport.x + insetX <= centerX <= viewport.x + viewport.width - insetX ==>
            ClampToViewportEdge(bbox, viewport).x + NodeWidth / 2.0 == centerX
    ensures var centerY := bbox.y + bbox.height / 2.0;
            var insetY := Min(viewport.height / 2.0, NodeHeight / 2.0 + 24.0);
            viewport.y + insetY <= centerY <= viewport.y + viewport.height - insetY ==>
            ClampToViewportEdge(bbox, viewport).y + NodeHeight / 2.0 == centerY
  {
  }

  function SetOf<T>(s: seq<T>): set<T> {
    set x | x in s
  }

  lemma SetOneMore<T>(s: seq<T>, x: T)
    ensures SetOf(s + [x]) == SetOf(s) + {x}
  {
  }

  // ----- Nodes and bounds -----

  datatype FlowNode = FlowNode(id: Id, rect: Rect, caption: string)

  /** A collapsed subsystem. */
  datatype Cluster = Cluster(subsystem: Id, position: Point, caption: string, count: nat, bbox: Rect)

  /** The smallest rectangle around some: it encloses each, and each of its sides touches one. */
  ghost predicate IsBounds(bbox: Rect, rects: set<Rect>) {
    && (forall r :: r in rects ==> Encloses(bbox, r))
    && (exists r :: r in rects && r.x == bbox.x)
    && (exists r :: r in rects && r.x + r.width == bbox.x + bbox.width)
    && (exists r :: r in rects && r.y == bbox.y)
    && (exists r :: r in rects && r.y + r.height == bbox.y + bbox.height)
  }

  function Join(a: Rect, b: Rect): Rect {
    var x, y := Min(a.x, b.x), Min(a.y, b.y);
    Rect(x, y, Max(a.x + a.width, b.x + b.width) - x, Max(a.y + a.height, b.y + b.height) - y)
  }

  method NodesBounds(rects: seq<Rect>) returns (bbox: Rect)
    requires rects != []
    ensures IsBounds(bbox, SetOf(rects))
  {
    bbox := rects[0];
    for i := 1 to |rects|
      invariant IsBounds(bbox, SetOf(rects[..i]))
    {
      JoinIsBounds(bbox, SetOf(rects[..i]), rects[i]);
      SetOneMore(rects[..i], rects[i]);
      assert rects[..i + 1] == rects[..i] + [rects[i]];
      bbox := Join(bbox, rects[i]);
    }
    assert rects[..|rects|] == rects;
  }

  lemma JoinIsBounds(bbox: Rect, rects: set<Rect>, r: Rect)
    requires IsBounds(bbox, rects)
    ensures IsBounds(Join(bbox, r), rects + {r})
  {
    var both := Join(bbox, r);
    var left :| left in rects && left.x == bbox.x;
    var right :| right in rects && right.x + right.width == bbox.x + bbox.width;
    var top :| top in rects && top.y == bbox.y;
    var bottom :| bottom in rects && bottom.y + bottom.height == bbox.y + bbox.height;
    assert (if bbox.x < r.x then left else r).x == both.x;
    assert var s := if bbox.x + bbox.width > r.x + r.width then right else r; s.x + s.width == both.x + both.width;
    assert (if bbox.y < r.y then top else r).y == both.y;
    assert var s := if bbox.y + bbox.height > r.y + r.height then bottom else r; s.y + s.height == both.y + both.height;
  }

  /** What meets a rectangle still meets it in larger company. */
  lemma LargerMeetsToo(outer: Rect, inner: Rect, view: Rect)
    requires Encloses(outer, inner) && Intersect(inner, view)
    ensures Intersect(outer, view)
  {
  }

  // ----- Collecting what lies below an element -----

  /** The edges a search can follow: an empty id counts as none. */
  function Followable(links: set<Edge>): set<Edge> {
    set e | e in links && e.target != ""
  }

  ghost predicate Indexes(childrenOf: map<Id, seq<Id>>, links: set<Edge>) {
    forall p, c :: Joined(links, p, c) <==> p in childrenOf && c in childrenOf[p]
  }

  method CollectDescendants(childrenOf: map<Id, seq<Id>>, ghost links: set<Edge>, id: Id) returns (result: seq<Id>)
    requires Indexes(childrenOf, links)
    ensures Distinct(result)
    ensures forall x :: x in result <==> Descends(Followable(links), id, x)
  {
    hide Joined, Descends;
    ghost var follow := Followable(links);
    ghost var all := set e | e in links :: e.target;
    result := [];
    var visited: set<Id> := {};
    var stack := if id in childrenOf then childrenOf[id] else [];
    ChildrenAreBelow(childrenOf, links, id, id);
    while stack != []
      invariant forall x :: x in stack && x != "" ==> Descends(follow, id, x)
      invariant Distinct(result) && (forall x :: x in result <==> x in visited)
      invariant visited <= all && forall x :: x in visited ==> Descends(follow, id, x)
      invariant forall x, y :: (x == id || x in visited) && Joined(follow, x, y) ==> y in visited || y in stack
      decreases all - visited, |stack|
    {
      var next := stack[|stack| - 1];
      ghost var before := stack;
      stack := stack[..|stack| - 1];
      assert before == stack + [next];
      FollowsNoBlank(links);
      if next == "" || next in visited {
        continue;
      }
      BelowIsATarget(follow, id, next);
      visited := visited + {next};
      result := result + [next];
      ChildrenAreBelow(childrenOf, links, id, next);
      if next in childrenOf {
        stack := stack + childrenOf[next];
      }
    }
    ClosedSetHoldsAllBelow(follow, visited, id);
  }

  lemma FollowsNoBlank(links: set<Edge>)
    ensures forall x :: !Joined(Followable(links), x, "")
  {
  }

  lemma ChildrenAreBelow(childrenOf: map<Id, seq<Id>>, links: set<Edge>, root: Id, id: Id)
    requires Indexes(childrenOf, links) && (id == root || Descends(Followable(links), root, id))
    ensures forall x :: Joined(Followable(links), id, x) <==> x != "" && id in childrenOf && x in childrenOf[id]
    ensures forall x :: x != "" && id in childrenOf && x in childrenOf[id] ==> Descends(Followable(links), root, x)
  {
    hide Descends;
    forall x
      ensures Joined(Followable(links), id, x) <==> x != "" && Joined(links, id, x)
    {
    }
    forall x | Joined(Followable(links), id, x)
      ensures Descends(Followable(links), root, x)
    {
      DescendsFurther(Followable(links), root, id, x);
    }
  }

  lemma {:induction false} BlanklessWalk(links: set<Edge>, walk: seq<Id>)
    requires Descent(links, walk) && forall i :: 0 < i < |walk| ==> walk[i] != ""
    ensures Descent(Followable(links), walk)
  {
    forall i | 0 <= i < |walk| - 1
      ensures Joined(Followable(links), walk[i], walk[i + 1])
    {
      assert Joined(links, walk[i], walk[i + 1]);
    }
  }

  /** A search reaches all that lies below an element exactly when no element below it has an empty id. */
  lemma SearchIsCompleteIff(links: set<Edge>, id: Id)
    ensures (forall x :: Descends(links, id, x) ==> Descends(Followable(links), id, x)) <==> !Descends(links, id, "")
  {
    if Descends(links, id, "") {
      NoWayToBlank(links, id);
    } else {
      forall x | Descends(links, id, x)
        ensures Descends(Followable(links), id, x)
      {
        var walk :| Descent(links, walk) && walk[0] == id && walk[|walk| - 1] == x;
        forall i | 0 < i < |walk|
          ensures walk[i] != ""
        {
          WalkPrefix(links, walk, i);
        }
        BlanklessWalk(links, walk);
      }
    }
  }

  /** What hangs below an empty id alone is not found. */
  lemma BlankHidesItsOwn()
    ensures var links := {Edge("s", "", Contains), Edge("", "x", Contains)};
            Descends(links, "s", "x") && !Descends(Followable(links), "s", "x")
  {
    var links := {Edge("s", "", Contains), Edge("", "x", Contains)};
    var walk := ["s", "", "x"];
    assert forall i :: 0 <= i < 2 ==> Joined(links, walk[i], walk[i + 1]);
    assert Descent(links, walk);
    assert !Joined(Followable(links), "s", "x");
    forall a, b | Joined(Followable(links), a, b)
      ensures a == ""
    {
    }
    forall walk | Descent(Followable(links), walk)
      ensures walk[0] != "s"
    {
      assert Joined(Followable(links), walk[0], walk[0 + 1]);
    }
  }

  lemma WalkPrefix(links: set<Edge>, walk: seq<Id>, i: nat)
    requires Descent(links, walk) && 0 < i < |walk|
    ensures Descends(links, walk[0], walk[i])
  {
    var prefix := walk[..i + 1];
    forall j | 0 <= j < |prefix| - 1
      ensures Joined(links, prefix[j], prefix[j + 1])
    {
      assert Joined(links, walk[j], walk[j + 1]);
    }
    assert Descent(links, prefix);
  }

  lemma NoWayToBlank(links: set<Edge>, id: Id)
    ensures !Descends(Followable(links), id, "")
  {
    forall walk | Descent(Followable(links), walk)
      ensures walk[|walk| - 1] != ""
    {
      assert Joined(Followable(links), walk[|walk| - 2], walk[|walk| - 2 + 1]);
    }
  }

  // ----- Clustering -----

  function NodesById(nodes: seq<FlowNode>): (m: map<Id, FlowNode>)
    ensures forall n :: n in nodes ==> n.id in m
  {
    if nodes == [] then map[] else NodesById(nodes[..|nodes| - 1])[nodes[|nodes| - 1].id := nodes[|nodes| - 1]]
  }

  predicate HasParent(links: set<Edge>, id: Id) {
    exists e :: e in links && e.target == id
  }

  /** A direct child of a node that has no parent. */
  predicate TopLevel(nodes: seq<FlowNode>, links: set<Edge>, id: Id) {
    exists n :: n in nodes && !HasParent(links, n.id) && Joined(links, n.id, id)
  }

  ghost function Members(links: set<Edge>, subsystem: Id): (m: set<Id>)
    ensures forall x :: x in m <==> Descends(Followable(links), subsystem, x)
  {
    hide Descends;
    forall x | Descends(Followable(links), subsystem, x)
      ensures x in Below(Followable(links), subsystem)
    {
      BelowContainsTarget(Followable(links), subsystem, x);
    }
    Below(Followable(links), subsystem)
  }

  ghost function MemberRects(nodes: seq<FlowNode>, links: set<Edge>, subsystem: Id): set<Rect> {
    set x | x in Members(links, subsystem) && x in NodesById(nodes) :: NodesById(nodes)[x].rect
  }

  /** A subsystem that lies, with all below it, outside the view. */
  ghost predicate Collapsed(nodes: seq<FlowNode>, links: set<Edge>, viewport: Rect, c: Cluster) {
    && TopLevel(nodes, links, c.subsystem)
    && IsBounds(c.bbox, MemberRects(nodes, links, c.subsystem))
    && !Intersect(c.bbox, ExpandRect(viewport, ViewportMarginFactor))
    && c.position == ClampToViewportEdge(c.bbox, viewport)
    && c.count == |Members(links, c.subsystem)|
    && c.caption == (if c.subsystem in NodesById(nodes) then NodesById(nodes)[c.subsystem].caption else c.subsystem)
  }

  ghost predicate Live(nodes: seq<FlowNode>, links: set<Edge>, viewport: Rect, subsystem: Id) {
    || MemberRects(nodes, links, subsystem) == {}
    || exists bbox ::
         IsBounds(bbox, MemberRects(nodes, links, subsystem)) &&
         Intersect(bbox, ExpandRect(viewport, ViewportMarginFactor))
  }

  function Subsystems(clusters: seq<Cluster>): seq<Id> {
    seq(|clusters|, i requires 0 <= i < |clusters| => clusters[i].subsystem)
  }

  ghost function Away(links: set<Edge>, clusters: seq<Cluster>): set<Id> {
    if clusters == [] then {}
    else Away(links, clusters[..|clusters| - 1]) + Members(links, clusters[|clusters| - 1].subsystem)
  }

  function Kept(nodes: seq<FlowNode>, away: set<Id>): (kept: seq<FlowNode>)
    ensures forall n :: n in kept <==> n in nodes && n.id !in away
  {
    if nodes == [] then []
    else
      Kept(nodes[..|nodes| - 1], away) + if nodes[|nodes| - 1].id in away then [] else [nodes[|nodes| - 1]]
  }

  class Index {
    var parentOf: map<Id, Id>
    var childrenOf: map<Id, seq<Id>>
    ghost var links: set<Edge>

    ghost predicate Valid()
      reads this
    {
      Indexes(childrenOf, links) && forall id :: id in parentOf <==> HasParent(links, id)
    }

    constructor (containsEdges: seq<Edge>)
      requires forall e :: e in containsEdges ==> e.kind == Contains
      ensures Valid() && links == EdgeSet(containsEdges)
    {
      parentOf, childrenOf, links := map[], map[], {};
      new;
      for i := 0 to |containsEdges|
        invariant Valid() && links == EdgeSet(containsEdges[..i])
      {
        assert containsEdges[..i + 1] == containsEdges[..i] + [containsEdges[i]];
        Add(containsEdges[i]);
        assert EdgeSet(containsEdges[..i + 1]) == EdgeSet(containsEdges[..i]) + {containsEdges[i]};
      }
      assert containsEdges[..|containsEdges|] == containsEdges;
    }

    method Add(e: Edge)
      requires Valid() && e.kind == Contains
      modifies this
      ensures Valid() && links == old(links) + {e}
    {
      parentOf := parentOf[e.target := e.source];
      var children := if e.source in childrenOf then childrenOf[e.source] else [];
      childrenOf := childrenOf[e.source := children + [e.target]];
      links := links + {e};
      forall p, c
        ensures Joined(links, p, c) <==> p in childrenOf && c in childrenOf[p]
      {
        assert Joined(links, p, c) <==> Joined(old(links), p, c) || (p == e.source && c == e.target);
      }
      forall id
        ensures id in parentOf <==> HasParent(links, id)
      {
        assert id != e.target ==> (HasParent(links, id) <==> HasParent(old(links), id));
        assert e in links;
      }
    }
  }

  method TopLevelSubsystems(nodes: seq<FlowNode>, index: Index) returns (ids: seq<Id>)
    requires index.Valid()
    ensures Distinct(ids) && forall id :: id in ids <==> TopLevel(nodes, index.links, id)
  {
    hide Joined, HasParent;
    ids := [];
    for i := 0 to |nodes|
      invariant Distinct(ids) && forall id :: id in ids <==> TopLevel(nodes[..i], index.links, id)
    {
      var n := nodes[i];
      assert nodes[..i + 1] == nodes[..i] + [n];
      ghost var before := ids;
      if n.id !in index.parentOf {
        var children := if n.id in index.childrenOf then index.childrenOf[n.id] else [];
        ids := AddNew(ids, children);
      }
      forall id
        ensures id in ids <==> TopLevel(nodes[..i + 1], index.links, id)
      {
        assert TopLevel(nodes[..i + 1], index.links, id) <==>
          TopLevel(nodes[..i], index.links, id) || (!HasParent(index.links, n.id) && Joined(index.links, n.id, id));
      }
    }
    assert nodes[..|nodes|] == nodes;
  }

  method AddNew(ids: seq<Id>, more: seq<Id>) returns (r: seq<Id>)
    requires Distinct(ids)
    ensures Distinct(r) && forall id :: id in r <==> id in ids || id in more
  {
    r := ids;
    for i := 0 to |more|
      invariant Distinct(r) && forall id :: id in r <==> id in ids || id in more[..i]
    {
      assert more[..i + 1] == more[..i] + [more[i]];
      if more[i] !in r {
        r := r + [more[i]];
      }
    }
    assert more[..|more|] == more;
  }

  method ComputeClusteredNodes(nodes: seq<FlowNode>, containsEdges: seq<Edge>, viewport: Rect)
    returns (kept: seq<FlowNode>, clusters: seq<Cluster>)
    requires forall e :: e in containsEdges ==> e.kind == Contains
    ensures var links := EdgeSet(containsEdges);
            && kept == Kept(nodes, Away(links, clusters))
            && Distinct(Subsystems(clusters))
            && (forall c :: c in clusters ==> Collapsed(nodes, links, viewport, c))
            && (forall id :: TopLevel(nodes, links, id) && id !in Subsystems(clusters) ==>
                Live(nodes, links, viewport, id))
  {
    hide Joined, TopLevel, Collapsed, Live, Members, MemberRects, Distinct;
    var index := new Index(containsEdges);
    ghost var links := index.links;
    var childrenOf := index.childrenOf;
    var ids := TopLevelSubsystems(nodes, index);
    var away: set<Id> := {};
    clusters := [];
    NoneTwice();
    for i := 0 to |ids|
      invariant away == Away(links, clusters)
      invariant Distinct(Subsystems(clusters)) && forall id :: id in Subsystems(clusters) ==> id in ids[..i]
      invariant forall c :: c in clusters ==> Collapsed(nodes, links, viewport, c)
      invariant forall id :: id in ids[..i] && id !in Subsystems(clusters) ==> Live(nodes, links, viewport, id)
    {
      assert ids[..i + 1] == ids[..i] + [ids[i]];
      var members, c := CollapseSubsystem(nodes, childrenOf, links, viewport, ids[i]);
      if c.Some? {
        OneMoreCluster(clusters, c.value, ids, i);
        AwayOneMore(links, clusters, c.value);
        clusters := clusters + [c.value];
        away := away + SetOf(members);
      }
    }
    assert ids[..|ids|] == ids;
    kept := [];
    for i := 0 to |nodes|
      invariant kept == Kept(nodes[..i], away)
    {
      assert nodes[..i + 1][..i] == nodes[..i];
      if nodes[i].id !in away {
        kept := kept + [nodes[i]];
      }
    }
    assert nodes[..|nodes|] == nodes;
  }

  lemma NoneTwice()
    ensures Distinct(Subsystems([])) && Subsystems([]) == []
  {
  }

  lemma OneMoreCluster(clusters: seq<Cluster>, c: Cluster, ids: seq<Id>, i: nat)
    requires Distinct(Subsystems(clusters)) && Distinct(ids) && i < |ids| && c.subsystem == ids[i]
    requires forall id :: id in Subsystems(clusters) ==> id in ids[..i]
    ensures Distinct(Subsystems(clusters + [c])) && Subsystems(clusters + [c]) == Subsystems(clusters) + [ids[i]]
  {
    assert Subsystems(clusters + [c]) == Subsystems(clusters) + [ids[i]];
    forall id | id in ids[..i]
      ensures id != ids[i]
    {
      var j :| 0 <= j < i && ids[j] == id;
    }
    AppendNew(Subsystems(clusters), ids[i]);
  }

  lemma AppendNew(s: seq<Id>, x: Id)
    requires Distinct(s) && x !in s
    ensures Distinct(s + [x])
  {
  }

  lemma AwayOneMore(links: set<Edge>, clusters: seq<Cluster>, c: Cluster)
    ensures Away(links, clusters + [c]) == Away(links, clusters) + Members(links, c.subsystem)
  {
    assert (clusters + [c])[..|clusters|] == clusters;
  }

  /** One subsystem: a placeholder for it if it has something to hide and all of that is out of view. */
  method CollapseSubsystem(nodes: seq<FlowNode>, childrenOf: map<Id, seq<Id>>, ghost links: set<Edge>, viewport: Rect,
                           id: Id) returns (members: seq<Id>, c: Option<Cluster>)
    requires Indexes(childrenOf, links) && TopLevel(nodes, links, id)
    ensures SetOf(members) == Members(links, id)
    ensures if c.Some? then Collapsed(nodes, links, viewport, c.value) && c.value.subsystem == id
            else Live(nodes, links, viewport, id)
  {
    hide Descends, TopLevel, Intersect, IsBounds, ExpandRect, ClampToViewportEdge, Distinct, Joined;
    members := CollectDescendants(childrenOf, links, id);
    var byId := NodesById(nodes);
    var rects: seq<Rect> := [];
    for i := 0 to |members|
      invariant SetOf(rects) == set x | x in members[..i] && x in byId :: byId[x].rect
    {
      assert members[..i + 1] == members[..i] + [members[i]];
      if members[i] in byId {
        SetOneMore(rects, byId[members[i]].rect);
        rects := rects + [byId[members[i]].rect];
      }
    }
    assert members[..|members|] == members;
    assert SetOf(members) == Members(links, id);
    assert SetOf(rects) == MemberRects(nodes, links, id);
    if rects == [] {
      return members, None;
    }
    var bbox := NodesBounds(rects);
    if Intersect(bbox, ExpandRect(viewport, ViewportMarginFactor)) {
      return members, None;
    }
    DistinctSize(members);
    var caption := if id in byId then byId[id].caption else id;
    return members, Some(Cluster(id, ClampToViewportEdge(bbox, viewport), caption, |members|, bbox));
  }

  lemma {:induction false} DistinctSize(ids: seq<Id>)
    requires Distinct(ids)
    ensures |SetOf(ids)| == |ids|
    decreases |ids|
  {
    if ids != [] {
      var init, last := ids[..|ids| - 1], ids[|ids| - 1];
      DistinctSize(init);
      assert ids == init + [last];
      SetOneMore(init, last);
    }
  }
}
