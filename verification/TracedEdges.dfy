/** A budgeted search told on the stored edges: which of them it follows, which way, and what it finds. */
module TracedEdges {
  import opened SysmlModel
  import opened Ordering
  import opened Traversal
  import opened TraversalTheorems

  /** The five kinds of edge that are traced. */
  ghost predicate TraceKind(kind: EdgeKind) {
    kind == Satisfy || kind == Verify || kind == Refine || kind == Derive || kind == Copy
  }

  ghost predicate Trace(edges: seq<Edge>, source: Id, target: Id, kind: EdgeKind) {
    TraceKind(kind) && Edge(source, target, kind) in edges
  }

  /** One step of a search: against an edge's arrow when it goes by incoming edges, along it when by outgoing
      ones, either way when by both. */
  ghost predicate Steps(edges: seq<Edge>, direction: Direction, from: Id, to: Id, kind: EdgeKind) {
    match direction
    case Incoming => Trace(edges, to, from, kind)
    case Outgoing => Trace(edges, from, to, kind)
    case Both => Trace(edges, to, from, kind) || Trace(edges, from, to, kind)
  }

  ghost predicate StepsSomehow(edges: seq<Edge>, direction: Direction, from: Id, to: Id) {
    exists kind :: Steps(edges, direction, from, to, kind)
  }

  /** A walk along traced edges. */
  ghost predicate TracedWalk(edges: seq<Edge>, direction: Direction, root: Id, id: Id, walk: seq<Id>) {
    && walk != [] && walk[0] == root && walk[|walk| - 1] == id
    && forall i :: 0 <= i < |walk| - 1 ==> StepsSomehow(edges, direction, walk[i], walk[i + 1])
  }

  lemma {:induction false} LinksInAre(edges: seq<Edge>, id: Id, l: Link)
    ensures l in LinksIn(edges, id) <==> Trace(edges, l.id, id, l.kind)
  {
    if edges != [] {
      LinksInAre(edges[..|edges| - 1], id, l);
      assert edges == edges[..|edges| - 1] + [edges[|edges| - 1]];
    }
  }

  lemma {:induction false} LinksOutAre(edges: seq<Edge>, id: Id, l: Link)
    ensures l in LinksOut(edges, id) <==> Trace(edges, id, l.id, l.kind)
  {
    if edges != [] {
      LinksOutAre(edges[..|edges| - 1], id, l);
      assert edges == edges[..|edges| - 1] + [edges[|edges| - 1]];
    }
  }

  /** An element's neighbours are what one step leads to, whichever way the search goes. */
  lemma NeighboursAreSteps(edges: seq<Edge>, direction: Direction, id: Id, l: Link)
    ensures l in Neighbours(edges, direction, id) <==> Steps(edges, direction, id, l.id, l.kind)
  {
    LinksInAre(edges, id, l);
    LinksOutAre(edges, id, l);
  }

  // ----- How many neighbours there are -----

  /** Where in the list there are edges to follow from an element, forwards or backwards. */
  ghost function EndingAt(edges: seq<Edge>, id: Id): set<nat> {
    set i: nat | i < |edges| && edges[i].target == id && TraceKind(edges[i].kind)
  }

  ghost function StartingAt(edges: seq<Edge>, id: Id): set<nat> {
    set i: nat | i < |edges| && edges[i].source == id && TraceKind(edges[i].kind)
  }

  /** An edge counts each time it is listed, and twice if a search by both ways meets it at both ends. */
  ghost function Degree(edges: seq<Edge>, direction: Direction, id: Id): nat {
    match direction
    case Incoming => |EndingAt(edges, id)|
    case Outgoing => |StartingAt(edges, id)|
    case Both => |EndingAt(edges, id)| + |StartingAt(edges, id)|
  }

  lemma OneMorePlace(edges: seq<Edge>, e: Edge, id: Id)
    ensures EndingAt(edges + [e], id) ==
            EndingAt(edges, id) + if TraceKind(e.kind) && e.target == id then {|edges|} else {}
    ensures StartingAt(edges + [e], id) ==
            StartingAt(edges, id) + if TraceKind(e.kind) && e.source == id then {|edges|} else {}
  {
  }

  lemma {:induction false} LinksArePlaces(edges: seq<Edge>, id: Id)
    ensures |LinksIn(edges, id)| == |EndingAt(edges, id)| && |LinksOut(edges, id)| == |StartingAt(edges, id)|
    decreases |edges|
  {
    hide EndingAt, StartingAt;
    if edges == [] {
      NoPlaces(id);
    } else {
      var init, e := edges[..|edges| - 1], edges[|edges| - 1];
      LinksArePlaces(init, id);
      assert edges == init + [e];
      OneMorePlace(init, e, id);
      NotYetPlaced(init, id);
    }
  }

  lemma NoPlaces(id: Id)
    ensures EndingAt([], id) == {} && StartingAt([], id) == {}
  {
  }

  lemma NotYetPlaced(edges: seq<Edge>, id: Id)
    ensures |edges| !in EndingAt(edges, id) && |edges| !in StartingAt(edges, id)
  {
  }

  lemma DegreeIs(edges: seq<Edge>, direction: Direction, id: Id)
    ensures |Neighbours(edges, direction, id)| == Degree(edges, direction, id)
  {
    hide EndingAt, StartingAt, LinksIn, LinksOut;
    LinksArePlaces(edges, id);
  }

  // ----- Which neighbours are kept -----

  /** Of an element's neighbours the search keeps those with the least ids, as many as the budget allows. */
  lemma KeptAreFirst(q: Query, id: Id, kept: Link, left: Link)
    requires kept in Kept(q, id) && Steps(q.edges, q.direction, id, left.id, left.kind) && left !in Kept(q, id)
    ensures Steps(q.edges, q.direction, id, kept.id, kept.kind) && Leq(kept.id, left.id)
    ensures |Kept(q, id)| == q.maxFanout
  {
    hide Leq, Neighbours;
    var all := Neighbours(q.edges, q.direction, id);
    var sorted := SortBy(LinkKey, all);
    NeighboursAreSteps(q.edges, q.direction, id, kept);
    NeighboursAreSteps(q.edges, q.direction, id, left);
    SortSorts(LinkKey, all);
    assert left in multiset(sorted) && kept in multiset(all) by {
      assert left in multiset(all);
      assert kept in sorted;
      assert kept in multiset(sorted);
    }
    var j :| 0 <= j < |sorted| && sorted[j] == left;
    assert |sorted| > q.maxFanout;
    var i :| 0 <= i < q.maxFanout && sorted[i] == kept;
    assert j >= q.maxFanout;
    assert Leq(LinkKey(sorted[i]), LinkKey(sorted[j]));
  }

  /** How many it keeps: all, or as many as the budget allows. */
  lemma KeptCount(q: Query, id: Id)
    ensures var degree := Degree(q.edges, q.direction, id);
            |Kept(q, id)| == if degree > q.maxFanout then q.maxFanout else degree
  {
    DegreeIs(q.edges, q.direction, id);
  }

  // ----- What is found -----

  lemma LeadsIsStep(q: Query, x: Id, y: Id)
    ensures Leads(All1(q), x, y) <==> StepsSomehow(q.edges, q.direction, x, y)
  {
    hide Neighbours, Steps;
    if Leads(All1(q), x, y) {
      var l :| l in All(q, x) && l.id == y;
      NeighboursAreSteps(q.edges, q.direction, x, l);
    }
    if StepsSomehow(q.edges, q.direction, x, y) {
      var kind :| Steps(q.edges, q.direction, x, y, kind);
      NeighboursAreSteps(q.edges, q.direction, x, Link(y, kind));
    }
  }

  lemma WalksAreTraced(q: Query, root: Id, id: Id, walk: seq<Id>)
    ensures WalkTo(All1(q), root, id, walk) <==> TracedWalk(q.edges, q.direction, root, id, walk)
  {
    hide Leads, StepsSomehow;
    if walk != [] {
      forall i | 0 <= i < |walk| - 1
        ensures Leads(All1(q), walk[i], walk[i + 1]) <==> StepsSomehow(q.edges, q.direction, walk[i], walk[i + 1])
      {
        LeadsIsStep(q, walk[i], walk[i + 1]);
      }
    }
  }

  /** No element the search asks for has more neighbours than the budget allows. */
  ghost predicate Uncut(q: Query, root: Id, depth: nat) {
    forall id, walk :: TracedWalk(q.edges, q.direction, root, id, walk) && |walk| <= depth ==>
      Degree(q.edges, q.direction, id) <= q.maxFanout
  }

  /** A search reports a cut exactly when, in the whole graph, an element nearer than its depth has more neighbours
      than the budget allows. */
  lemma CutIff(q: Query, root: Id, depth: nat)
    ensures Overfull(q, Asked(Kept1(q), root, depth)) <==> !Uncut(q, root, depth)
  {
    hide Within, Kept1, All1, Degree, TracedWalk, Overfull;
    if !Overfull(q, Asked(Kept1(q), root, depth)) {
      NothingCut(q, root, depth);
    } else {
      FirstCut(q, root, depth);
    }
  }

  lemma NothingCut(q: Query, root: Id, depth: nat)
    requires !Overfull(q, Asked(Kept1(q), root, depth))
    ensures Uncut(q, root, depth)
  {
    hide Within, Kept1, All1, Degree, TracedWalk, WalkTo, Neighbours;
    forall id, walk | TracedWalk(q.edges, q.direction, root, id, walk) && |walk| <= depth
      ensures Degree(q.edges, q.direction, id) <= q.maxFanout
    {
      TracedIsLong(q, root, id, walk);
      AskedGrows(q, root, depth);
      UncutSearchIsExact(q, root, depth - 1);
      WalksAreTraced(q, root, id, walk);
      WithinMeansWalk(All1(q), root, depth - 1, id);
      DegreeIs(q.edges, q.direction, id);
    }
  }

  lemma TracedIsLong(q: Query, root: Id, id: Id, walk: seq<Id>)
    requires TracedWalk(q.edges, q.direction, root, id, walk)
    ensures |walk| > 0
  {
  }

  lemma AskedGrows(q: Query, root: Id, depth: nat)
    requires depth > 0 && !Overfull(q, Asked(Kept1(q), root, depth))
    ensures !Overfull(q, Asked(Kept1(q), root, depth - 1))
  {
    hide Within, Kept1, All;
    if depth > 1 {
      WithinGrows(Kept1(q), root, depth - 2, depth - 1);
    }
    FewerOverfull(q, Asked(Kept1(q), root, depth - 1), Asked(Kept1(q), root, depth));
  }

  /** Up to the first element with too many neighbours a search sees the whole graph. */
  lemma {:induction false} FirstCut(q: Query, root: Id, depth: nat)
    requires Overfull(q, Asked(Kept1(q), root, depth))
    ensures !Uncut(q, root, depth)
    decreases depth
  {
    hide Within, Kept1, All1, Degree, TracedWalk, WalkTo, Neighbours;
    assert depth > 0;
    if Overfull(q, Asked(Kept1(q), root, depth - 1)) {
      FirstCut(q, root, depth - 1);
    } else {
      UncutSearchIsExact(q, root, depth - 1);
      var id :| id in Within(Kept1(q), root, depth - 1) && |All(q, id)| > q.maxFanout;
      WithinMeansWalk(All1(q), root, depth - 1, id);
      var walk :| |walk| <= depth && WalkTo(All1(q), root, id, walk);
      WalksAreTraced(q, root, id, walk);
      DegreeIs(q.edges, q.direction, id);
    }
  }

  /** The searched graph of one query: what a run of the search returns, told on the stored edges. */
  lemma FoundIff(q: Query, root: Id, depth: nat, id: Id)
    requires Uncut(q, root, depth)
    ensures id in Within(Kept1(q), root, depth) <==>
            exists walk :: |walk| <= depth + 1 && TracedWalk(q.edges, q.direction, root, id, walk)
  {
    hide Within, Kept1, All1, Degree, Uncut, TracedWalk, WalkTo;
    CutIff(q, root, depth);
    UncutSearchIsExact(q, root, depth);
    WithinMeansWalk(All1(q), root, depth, id);
    if id in Within(Kept1(q), root, depth) {
      var walk :| |walk| <= depth + 1 && WalkTo(All1(q), root, id, walk);
      WalksAreTraced(q, root, id, walk);
    }
    if walk :| |walk| <= depth + 1 && TracedWalk(q.edges, q.direction, root, id, walk) {
      WalksAreTraced(q, root, id, walk);
    }
  }

  /** In any search, cut or not, what is found is reached along stored edges, and the last of a way no longer than
      the recorded distance is of the recorded kind. */
  lemma FoundIsReached(q: Query, root: Id, id: Id, found: Found) returns (walk: seq<Id>)
    requires RightlyFound(Kept1(q), root, id, found)
    ensures |walk| == found.hops + 1 >= 2 && TracedWalk(q.edges, q.direction, root, id, walk)
    ensures Steps(q.edges, q.direction, walk[|walk| - 2], id, found.via)
  {
    hide Within, Level, Neighbours, Steps, Kept;
    var y :| y in Level(Kept1(q), root, found.hops - 1) && Link(id, found.via) in Kept1(q)(y);
    LevelIsWithin(q, root, found.hops - 1);
    var init := WithinHasWalk(Kept1(q), root, found.hops - 1, y);
    KeptWalkIsTraced(q, root, y, init);
    KeptIsStep(q, y, Link(id, found.via));
    walk := init + [id];
    forall i | 0 <= i < |walk| - 1
      ensures StepsSomehow(q.edges, q.direction, walk[i], walk[i + 1])
    {
      if i < |init| - 1 {
        assert StepsSomehow(q.edges, q.direction, init[i], init[i + 1]);
      }
    }
    LevelIsFar(q, root, y, found.hops - 1, init);
  }

  lemma LevelIsWithin(q: Query, root: Id, hops: nat)
    ensures Level(Kept1(q), root, hops) <= Within(Kept1(q), root, hops)
  {
  }

  lemma LevelIsFar(q: Query, root: Id, y: Id, hops: nat, walk: seq<Id>)
    requires y in Level(Kept1(q), root, hops) && WalkTo(Kept1(q), root, y, walk) && |walk| <= hops + 1
    ensures |walk| == hops + 1
  {
    hide Around, Leads;
    WalksStayWithin(Kept1(q), root, walk);
    if |walk| - 1 < hops {
      WithinGrows(Kept1(q), root, |walk| - 1, hops - 1);
    }
  }

  lemma KeptIsStep(q: Query, x: Id, l: Link)
    requires l in Kept(q, x)
    ensures Steps(q.edges, q.direction, x, l.id, l.kind)
  {
    hide Neighbours, Steps;
    var all := Neighbours(q.edges, q.direction, x);
    assert l in multiset(SortBy(LinkKey, all)) by {
      assert l in SortBy(LinkKey, all);
    }
    NeighboursAreSteps(q.edges, q.direction, x, l);
  }

  lemma KeptWalkIsTraced(q: Query, root: Id, id: Id, walk: seq<Id>)
    requires WalkTo(Kept1(q), root, id, walk)
    ensures TracedWalk(q.edges, q.direction, root, id, walk)
  {
    hide Kept, Steps;
    forall i | 0 <= i < |walk| - 1
      ensures StepsSomehow(q.edges, q.direction, walk[i], walk[i + 1])
    {
      assert Leads(Kept1(q), walk[i], walk[i + 1]);
      var l :| l in Kept(q, walk[i]) && l.id == walk[i + 1];
      KeptIsStep(q, walk[i], l);
    }
  }

  /** A search's answer, on the stored edges alone: it reports a cut just if an element nearer than the depth has
      more neighbours than the budget allows, and without a cut it is what a walk of traced edges no longer than the
      depth leads to, the root aside, each with the length of a shortest such walk. */
  lemma AnswerIsTold(q: Query, root: Id, depth: nat, visited: map<Id, Found>, truncated: bool, id: Id)
    requires Answers(q, root, depth, visited, truncated)
    ensures truncated <==> !Uncut(q, root, depth)
    ensures !truncated ==>
      (id in visited <==>
       id != root && exists walk :: |walk| <= depth + 1 && TracedWalk(q.edges, q.direction, root, id, walk))
    ensures !truncated && id in visited ==>
      forall walk :: TracedWalk(q.edges, q.direction, root, id, walk) ==> visited[id].hops <= |walk| - 1
  {
    hide Within, Level, Kept1, Overfull, Asked, Uncut, TracedWalk, RightlyFound;
    CutIff(q, root, depth);
    if !truncated {
      FoundIff(q, root, depth, id);
      if id in visited {
        forall walk | TracedWalk(q.edges, q.direction, root, id, walk)
          ensures visited[id].hops <= |walk| - 1
        {
          ShortestIsRecorded(q, root, depth, id, visited[id], walk);
        }
      }
    }
  }

  lemma ShortestIsRecorded(q: Query, root: Id, depth: nat, id: Id, found: Found, walk: seq<Id>)
    requires Uncut(q, root, depth) && id in Within(Kept1(q), root, depth) && RightlyFound(Kept1(q), root, id, found)
    requires TracedWalk(q.edges, q.direction, root, id, walk)
    ensures found.hops <= |walk| - 1
  {
    hide Within, Level, Kept1, All1, TracedWalk, Degree, Uncut;
    TracedIsLong(q, root, id, walk);
    FoundInDepth(q, root, depth, id, found);
    if |walk| <= depth {
      WalksAreTraced(q, root, id, walk);
      WithinMeansWalk(All1(q), root, |walk| - 1, id);
      CutIff(q, root, depth);
      SmallerUncut(q, root, |walk| - 1, depth);
      CutIff(q, root, |walk| - 1);
      UncutSearchIsExact(q, root, |walk| - 1);
      WithinMeansWalk(Kept1(q), root, |walk| - 1, id);
      var shorter :| |shorter| <= |walk| && WalkTo(Kept1(q), root, id, shorter);
      RecordedHopsAreShortest(Kept1(q), root, id, found, shorter);
    }
  }

  lemma FoundInDepth(q: Query, root: Id, depth: nat, id: Id, found: Found)
    requires id in Within(Kept1(q), root, depth) && RightlyFound(Kept1(q), root, id, found)
    ensures found.hops <= depth
  {
    hide Kept1, Around;
    if depth < found.hops {
      WithinGrows(Kept1(q), root, depth, found.hops - 1);
    }
  }

  lemma SmallerUncut(q: Query, root: Id, less: nat, depth: nat)
    requires Uncut(q, root, depth) && less <= depth
    ensures Uncut(q, root, less)
  {
    hide TracedWalk, Degree;
  }
}
