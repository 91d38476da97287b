/** A traceability search under a budget: breadth first, so deep and no deeper, and no more than so many
    neighbours of any element. */
module Traversal {
  import opened SysmlModel
  import opened Ordering

  datatype Direction = Incoming | Outgoing | Both

  /** A neighbour and the kind of the edge that leads to it. */
  datatype Link = Link(id: Id, kind: EdgeKind)

  /** How an element was first found: after how many hops, over which kind of edge. */
  datatype Found = Found(hops: nat, via: EdgeKind)

  /** An entry of the search's queue. */
  datatype Queued = Queued(id: Id, hops: nat)

  predicate Traced(kind: EdgeKind) {
    kind in {Satisfy, Verify, Refine, Derive, Copy}
  }

  function LinksIn(edges: seq<Edge>, id: Id): (links: seq<Link>)
    ensures forall l :: l in links ==> Edge(l.id, id, l.kind) in edges
  {
    if edges == [] then []
    else
      var e := edges[|edges| - 1];
      LinksIn(edges[..|edges| - 1], id) + if Traced(e.kind) && e.target == id then [Link(e.source, e.kind)] else []
  }

  function LinksOut(edges: seq<Edge>, id: Id): (links: seq<Link>)
    ensures forall l :: l in links ==> Edge(id, l.id, l.kind) in edges
  {
    if edges == [] then []
    else
      var e := edges[|edges| - 1];
      LinksOut(edges[..|edges| - 1], id) + if Traced(e.kind) && e.source == id then [Link(e.target, e.kind)] else []
  }

  function Neighbours(edges: seq<Edge>, direction: Direction, id: Id): seq<Link> {
    match direction
    case Incoming => LinksIn(edges, id)
    case Outgoing => LinksOut(edges, id)
    case Both => LinksIn(edges, id) + LinksOut(edges, id)
  }

  function LinkKey(l: Link): string { l.id }

  function Capped(links: seq<Link>, maxFanout: nat): seq<Link> {
    var sorted := SortBy(LinkKey, links);
    if |sorted| > maxFanout then sorted[..maxFanout] else sorted
  }

  /** A search's question: which edges to follow, which way, and how many of an element's at most. */
  datatype Query = Query(edges: seq<Edge>, direction: Direction, maxFanout: nat)

  function Kept(q: Query, id: Id): seq<Link> {
    Capped(Neighbours(q.edges, q.direction, id), q.maxFanout)
  }

  function All(q: Query, id: Id): seq<Link> {
    Neighbours(q.edges, q.direction, id)
  }

  function IdsOf(links: seq<Link>): set<Id> {
    set l | l in links :: l.id
  }

  // ----- The reference: what lies how far away -----

  /** Everything one hop from one of these. */
  function Around(next: Id -> seq<Link>, from: set<Id>): set<Id> {
    set x, l | x in from && l in next(x) :: l.id
  }

  function Within(next: Id -> seq<Link>, root: Id, hops: nat): set<Id> {
    if hops == 0 then {root}
    else Within(next, root, hops - 1) + Around(next, Within(next, root, hops - 1))
  }

  /** Found after just so many hops. */
  function Level(next: Id -> seq<Link>, root: Id, hops: nat): set<Id> {
    if hops == 0 then {root} else Within(next, root, hops) - Within(next, root, hops - 1)
  }

  lemma {:induction false} WithinGrows(next: Id -> seq<Link>, root: Id, less: nat, hops: nat)
    requires less <= hops
    ensures Within(next, root, less) <= Within(next, root, hops)
  {
    hide Around;
    if less < hops {
      WithinGrows(next, root, less, hops - 1);
    }
  }

  /** Only the newest level leads anywhere new. */
  lemma {:induction false} NewestLevelLeadsOn(next: Id -> seq<Link>, root: Id, hops: nat)
    ensures Within(next, root, hops + 1) == Within(next, root, hops) + Around(next, Level(next, root, hops))
  {
    var w := Within(next, root, hops);
    if hops > 0 {
      var before := Within(next, root, hops - 1);
      assert w == before + Level(next, root, hops);
      assert Around(next, w) == Around(next, before) + Around(next, Level(next, root, hops));
    }
  }

  lemma {:induction false} NothingNewStaysSo(next: Id -> seq<Link>, root: Id, less: nat, hops: nat)
    requires less <= hops && Within(next, root, less + 1) == Within(next, root, less)
    ensures Within(next, root, hops) == Within(next, root, less)
  {
    hide Around;
    if less < hops {
      NothingNewStaysSo(next, root, less, hops - 1);
    }
  }

  function Kept1(q: Query): Id -> seq<Link> {
    (id: Id) => Kept(q, id)
  }

  function All1(q: Query): Id -> seq<Link> {
    (id: Id) => All(q, id)
  }

  // ----- The search -----

  /** How far a search is: its current level, and of that level what has been taken from the queue, what is
      still in it, and what was queued behind it for the next level. */
  datatype Progress = Progress(level: nat, done: set<Id>, here: seq<Id>, later: seq<Id>)

  function Elems(s: seq<Id>): set<Id> {
    set x | x in s
  }

  function Tagged(s: seq<Id>, hops: nat): (r: seq<Queued>)
    ensures |r| == |s| && forall i :: 0 <= i < |s| ==> r[i] == Queued(s[i], hops)
  {
    seq(|s|, i requires 0 <= i < |s| => Queued(s[i], hops))
  }

  /** The elements of the current level whose links have been followed. */
  function Followed(depth: nat, p: Progress): set<Id> {
    if p.level < depth then p.done else {}
  }

  ghost predicate OnTrack(next: Id -> seq<Link>, root: Id, depth: nat, p: Progress, seen: set<Id>,
                          frontier: seq<Queued>) {
    && p.level <= depth
    && frontier == Tagged(p.here, p.level) + Tagged(p.later, p.level + 1)
    && p.done + Elems(p.here) == Level(next, root, p.level)
    && seen == Within(next, root, p.level) + Around(next, Followed(depth, p))
    && Elems(p.later) == Around(next, Followed(depth, p)) - Within(next, root, p.level)
  }

  /** Each record tells an element's distance, and the last edge of a shortest way to it. */
  ghost predicate RightlyFound(next: Id -> seq<Link>, root: Id, id: Id, found: Found) {
    && found.hops > 0 && id in Level(next, root, found.hops)
    && exists y :: y in Level(next, root, found.hops - 1) && Link(id, found.via) in next(y)
  }

  ghost predicate Recorded(next: Id -> seq<Link>, root: Id, seen: set<Id>, visited: map<Id, Found>) {
    && root in seen && visited.Keys == seen - {root}
    && forall id :: id in visited ==> RightlyFound(next, root, id, visited[id])
  }

  /** The elements whose neighbours a search asks for. */
  function Asked(next: Id -> seq<Link>, root: Id, depth: nat): set<Id> {
    if depth == 0 then {} else Within(next, root, depth - 1)
  }

  ghost predicate Overfull(q: Query, ids: set<Id>) {
    exists id :: id in ids && |All(q, id)| > q.maxFanout
  }

  lemma AroundOneMore(next: Id -> seq<Link>, from: set<Id>, x: Id)
    ensures Around(next, from + {x}) == Around(next, from) + IdsOf(next(x))
  {
  }

  lemma OneFollowed(next: Id -> seq<Link>, root: Id, depth: nat, p: Progress, seen: set<Id>, frontier: seq<Queued>,
                    fresh_: seq<Id>)
    requires OnTrack(next, root, depth, p, seen, frontier) && p.here != [] && p.level < depth
    requires Elems(fresh_) == IdsOf(next(p.here[0])) - seen
    ensures OnTrack(next, root, depth, Progress(p.level, p.done + {p.here[0]}, p.here[1..], p.later + fresh_),
                    seen + Elems(fresh_), frontier[1..] + Tagged(fresh_, p.level + 1))
    ensures forall x :: x in fresh_ ==> x in Level(next, root, p.level + 1)
    ensures p.here[0] in Level(next, root, p.level)
  {
    hide Within, Level, Around;
    var x := p.here[0];
    AroundOneMore(next, p.done, x);
    assert p.here == [x] + p.here[1..];
    assert Elems(p.here) == {x} + Elems(p.here[1..]);
    assert Elems(p.later + fresh_) == Elems(p.later) + Elems(fresh_);
    FreshAreNextLevel(next, root, p.level, p.done + {x}, Elems(fresh_));
    assert p.done + {x} + Elems(p.here[1..]) == Level(next, root, p.level);
  }

  lemma FreshAreNextLevel(next: Id -> seq<Link>, root: Id, level: nat, from: set<Id>, ids: set<Id>)
    requires from <= Level(next, root, level) && ids <= Around(next, from) && ids !! Within(next, root, level)
    ensures ids <= Level(next, root, level + 1)
  {
    NewestLevelLeadsOn(next, root, level);
  }

  lemma OneSkipped(next: Id -> seq<Link>, root: Id, depth: nat, p: Progress, seen: set<Id>, frontier: seq<Queued>)
    requires OnTrack(next, root, depth, p, seen, frontier) && p.here != [] && p.level == depth
    ensures OnTrack(next, root, depth, Progress(p.level, p.done + {p.here[0]}, p.here[1..], p.later), seen,
                    frontier[1..])
  {
    hide Within, Level, Around;
    var x := p.here[0];
    assert p.here == [x] + p.here[1..];
    assert Elems(p.here) == {x} + Elems(p.here[1..]);
    assert p.done + {x} + Elems(p.here[1..]) == Level(next, root, p.level);
  }

  lemma NothingAround(next: Id -> seq<Link>)
    ensures Around(next, {}) == {}
  {
  }

  lemma NextLevel(next: Id -> seq<Link>, root: Id, depth: nat, p: Progress, seen: set<Id>, frontier: seq<Queued>)
    requires OnTrack(next, root, depth, p, seen, frontier) && p.here == [] && p.later != []
    ensures OnTrack(next, root, depth, Progress(p.level + 1, {}, p.later, []), seen, frontier)
    ensures p.level < depth && p.done == Level(next, root, p.level)
  {
    hide Within, Around;
    NothingAround(next);
    assert p.later[0] in Elems(p.later);
    assert p.level < depth;
    assert Elems([]) == {};
    assert p.done == Level(next, root, p.level);
    NewestLevelLeadsOn(next, root, p.level);
    assert Tagged(p.later, p.level + 1) + Tagged([], p.level + 2) == frontier;
  }

  lemma Exhausted(next: Id -> seq<Link>, root: Id, depth: nat, p: Progress, seen: set<Id>, frontier: seq<Queued>)
    requires OnTrack(next, root, depth, p, seen, frontier) && p.here == [] && p.later == []
    ensures seen == Within(next, root, depth)
    ensures Asked(next, root, p.level) + Followed(depth, p) == Asked(next, root, depth)
  {
    hide Around;
    NothingAround(next);
    assert Elems([]) == {};
    if p.level < depth {
      NewestLevelLeadsOn(next, root, p.level);
      assert p.done == Level(next, root, p.level);
      assert Around(next, p.done) <= Within(next, root, p.level);
      assert Within(next, root, p.level + 1) == Within(next, root, p.level);
      NothingNewStaysSo(next, root, p.level, depth);
      NothingNewStaysSo(next, root, p.level, depth - 1);
    }
  }

  lemma Started(next: Id -> seq<Link>, root: Id, depth: nat)
    ensures OnTrack(next, root, depth, Progress(0, {}, [root], []), {root}, [Queued(root, 0)])
  {
    NothingAround(next);
    assert Elems([root]) == {root} && Elems([]) == {};
  }

  lemma FewAreSeen(next: Id -> seq<Link>, root: Id)
    ensures Recorded(next, root, {root}, map[])
  {
  }

  lemma QueueFacts(next: Id -> seq<Link>, root: Id, depth: nat, p: Progress, seen: set<Id>, frontier: seq<Queued>)
    requires OnTrack(next, root, depth, p, seen, frontier)
    ensures p.level <= depth
    ensures frontier == [] <==> p.here == [] && p.later == []
    ensures p.here != [] ==> frontier[0] == Queued(p.here[0], p.level)
  {
  }

  lemma NothingAsked(q: Query, next: Id -> seq<Link>, root: Id, depth: nat)
    ensures !Overfull(q, Asked(next, root, 0) + Followed(depth, Progress(0, {}, [root], [])))
  {
  }

  lemma AskedNextLevel(next: Id -> seq<Link>, root: Id, depth: nat, p: Progress)
    requires p.level < depth && p.done == Level(next, root, p.level)
    ensures Asked(next, root, p.level + 1) + Followed(depth, Progress(p.level + 1, {}, p.later, []))
         == Asked(next, root, p.level) + Followed(depth, p)
  {
    hide Around;
  }

  lemma AskedOneMore(q: Query, before: set<Id>, done: set<Id>, id: Id)
    ensures Overfull(q, before + (done + {id})) <==> Overfull(q, before + done) || |All(q, id)| > q.maxFanout
  {
    assert Overfull(q, before + (done + {id})) ==> Overfull(q, before + done) || |All(q, id)| > q.maxFanout;
    if |All(q, id)| > q.maxFanout {
      assert id in before + (done + {id});
    }
  }

  lemma StillRecorded(next: Id -> seq<Link>, root: Id, current: Queued, seen: set<Id>, visited: map<Id, Found>,
                      fresh_: seq<Id>, after: map<Id, Found>)
    requires Recorded(next, root, seen, visited) && current.id in Level(next, root, current.hops)
    requires after.Keys == (seen + Elems(fresh_)) - {root}
    requires forall x :: x in visited ==> after[x] == visited[x]
    requires forall x :: x in fresh_ ==>
      x in after && after[x].hops == current.hops + 1 && x in Level(next, root, current.hops + 1) &&
        Link(x, after[x].via) in next(current.id)
    ensures Recorded(next, root, seen + Elems(fresh_), after)
  {
    hide Level;
  }

  /** An element's neighbours in the order of their ids, no more than the budget allows. */
  method SomeNeighbours(edges: seq<Edge>, direction: Direction, id: Id, maxFanout: nat)
    returns (neighbours: seq<Link>, over: bool)
    ensures var q := Query(edges, direction, maxFanout);
            neighbours == Kept1(q)(id) && (over <==> |All(q, id)| > maxFanout)
  {
    neighbours := SortBy(LinkKey, Neighbours(edges, direction, id));
    over := |neighbours| > maxFanout;
    if over {
      neighbours := neighbours[..maxFanout];
    }
  }

  lemma RecordedKeys(next: Id -> seq<Link>, root: Id, seen: set<Id>, visited: map<Id, Found>)
    requires Recorded(next, root, seen, visited)
    ensures root in seen && visited.Keys == seen - {root}
    ensures forall id :: id in visited ==> RightlyFound(next, root, id, visited[id])
  {
  }

  /** Records and queues the neighbours not seen before. */
  method Discover(root: Id, current: Queued, neighbours: seq<Link>, known: map<Id, Found>, before: set<Id>,
                  queue: seq<Queued>)
    returns (visited: map<Id, Found>, seen: set<Id>, frontier: seq<Queued>, ghost fresh_: seq<Id>)
    requires root in before && known.Keys == before - {root}
    ensures seen == before + Elems(fresh_) && Elems(fresh_) == IdsOf(neighbours) - before
    ensures frontier == queue + Tagged(fresh_, current.hops + 1)
    ensures visited.Keys == seen - {root} && forall x :: x in known ==> visited[x] == known[x]
    ensures forall x :: x in fresh_ ==>
      x in visited && visited[x].hops == current.hops + 1 && Link(x, visited[x].via) in neighbours
  {
    visited, seen, frontier, fresh_ := known, before, queue, [];
    for i := 0 to |neighbours|
      invariant seen == before + Elems(fresh_) && Elems(fresh_) == IdsOf(neighbours[..i]) - before
      invariant frontier == queue + Tagged(fresh_, current.hops + 1)
      invariant visited.Keys == seen - {root} && forall x :: x in known ==> visited[x] == known[x]
      invariant forall x :: x in fresh_ ==>
        x in visited && visited[x].hops == current.hops + 1 && Link(x, visited[x].via) in neighbours
    {
      var l := neighbours[i];
      assert neighbours[..i + 1] == neighbours[..i] + [l];
      assert IdsOf(neighbours[..i + 1]) == IdsOf(neighbours[..i]) + {l.id};
      if l.id == root {
        continue;
      }
      if l.id !in visited {
        visited := visited[l.id := Found(current.hops + 1, l.kind)];
      }
      if l.id !in seen {
        assert Elems(fresh_ + [l.id]) == Elems(fresh_) + {l.id};
        seen := seen + {l.id};
        frontier := frontier + [Queued(l.id, current.hops + 1)];
        fresh_ := fresh_ + [l.id];
      }
    }
    assert neighbours[..|neighbours|] == neighbours;
  }

  /** What a search answers: what lies within its depth, each with its distance, and whether anything was cut. */
  ghost predicate Answers(q: Query, root: Id, depth: nat, visited: map<Id, Found>, truncated: bool) {
    && visited.Keys == Within(Kept1(q), root, depth) - {root}
    && (forall id :: id in visited ==> RightlyFound(Kept1(q), root, id, visited[id]))
    && (truncated <==> Overfull(q, Asked(Kept1(q), root, depth)))
  }

  method RunTraversal(edges: seq<Edge>, direction: Direction, root: Id, depth: nat, maxFanout: nat)
    returns (visited: map<Id, Found>, truncated: bool)
    ensures Answers(Query(edges, direction, maxFanout), root, depth, visited, truncated)
  {
    hide Within, Level, OnTrack, RightlyFound, Overfull, Asked, Around, Recorded, IdsOf, Elems, Kept1, All, Tagged;
    ghost var q := Query(edges, direction, maxFanout);
    ghost var next := Kept1(q);
    visited, truncated := map[], false;
    var seen := {root};
    var frontier := [Queued(root, 0)];
    ghost var p := Progress(0, {}, [root], []);
    Started(next, root, depth);
    NothingAsked(q, next, root, depth);
    FewAreSeen(next, root);
    while frontier != []
      invariant OnTrack(next, root, depth, p, seen, frontier)
      invariant Recorded(next, root, seen, visited)
      invariant truncated <==> Overfull(q, Asked(next, root, p.level) + Followed(depth, p))
      decreases depth - p.level, |p.here|, |frontier|
    {
      QueueFacts(next, root, depth, p, seen, frontier);
      if p.here == [] {
        NextLevel(next, root, depth, p, seen, frontier);
        AskedNextLevel(next, root, depth, p);
        p := Progress(p.level + 1, {}, p.later, []);
        QueueFacts(next, root, depth, p, seen, frontier);
      }
      var current := frontier[0];
      if current.hops >= depth {
        OneSkipped(next, root, depth, p, seen, frontier);
        frontier := frontier[1..];
        p := Progress(p.level, p.done + {current.id}, p.here[1..], p.later);
        continue;
      }
      AskedOneMore(q, Asked(next, root, p.level), p.done, current.id);
      var neighbours, over := SomeNeighbours(edges, direction, current.id, maxFanout);
      truncated := truncated || over;
      ghost var before, known, queue := seen, visited, frontier;
      RecordedKeys(next, root, seen, visited);
      ghost var fresh_: seq<Id>;
      visited, seen, frontier, fresh_ := Discover(root, current, neighbours, visited, seen, frontier[1..]);
      OneFollowed(next, root, depth, p, before, queue, fresh_);
      StillRecorded(next, root, current, before, known, fresh_, visited);
      p := Progress(p.level, p.done + {current.id}, p.here[1..], p.later + fresh_);
    }
    QueueFacts(next, root, depth, p, seen, frontier);
    Exhausted(next, root, depth, p, seen, frontier);
    RecordedKeys(next, root, seen, visited);
  }
}
