/** The containment hierarchy read off a list of elements and edges. */
module Containment {
  import opened SysmlModel
  import opened Ordering

  function Ids(elements: seq<ModelElement>): (ids: seq<Id>)
    ensures |ids| == |elements|
  {
    seq(|elements|, i requires 0 <= i < |elements| => elements[i].id)
  }

  ghost predicate Distinct<T>(s: seq<T>) {
    forall i, j :: 0 <= i < j < |s| ==> s[i] != s[j]
  }

  /** The last element listed under an id wins. */
  function ById(elements: seq<ModelElement>): map<Id, ModelElement> {
    if elements == [] then map[]
    else ById(elements[..|elements| - 1])[elements[|elements| - 1].id := elements[|elements| - 1]]
  }

  /** The targets of an element's Contains edges, in the order the edges are listed. */
  function ChildrenOf(edges: seq<Edge>, id: Id): seq<Id> {
    if edges == [] then []
    else
      var e := edges[|edges| - 1];
      ChildrenOf(edges[..|edges| - 1], id) + if e.kind == Contains && e.source == id then [e.target] else []
  }

  function Contained(edges: seq<Edge>): set<Id> {
    set e | e in edges && e.kind == Contains :: e.target
  }

  function RootIds(elements: seq<ModelElement>, edges: seq<Edge>): seq<Id> {
    if elements == [] then []
    else
      var id := elements[|elements| - 1].id;
      RootIds(elements[..|elements| - 1], edges) + if id in Contained(edges) then [] else [id]
  }

  function EdgeSet(edges: seq<Edge>): set<Edge> {
    set e | e in edges
  }

  /** Every Contains edge joins two listed elements. */
  ghost predicate Closed(elements: seq<ModelElement>, edges: seq<Edge>) {
    forall e :: e in edges && e.kind == Contains ==> e.source in ById(elements) && e.target in ById(elements)
  }

  /** No element has two parents. */
  ghost predicate SingleParent(edges: set<Edge>) {
    forall e, f :: e in edges && f in edges && e.kind == Contains && f.kind == Contains && e.target == f.target
      ==> e.source == f.source
  }

  // ----- Acyclicity -----

  ghost predicate Ranked(edges: set<Edge>, rank: Id -> nat) {
    forall e :: e in edges && e.kind == Contains ==> rank(e.source) > rank(e.target)
  }

  /** Containment descends: some rank falls along every Contains edge. */
  ghost predicate Acyclic(edges: set<Edge>) {
    exists rank: Id -> nat :: Ranked(edges, rank)
  }

  ghost function RankOf(edges: set<Edge>): (rank: Id -> nat)
    requires Acyclic(edges)
    ensures Ranked(edges, rank)
  {
    var rank: Id -> nat :| Ranked(edges, rank);
    rank
  }

  predicate Joined(edges: set<Edge>, parent: Id, child: Id) {
    Edge(parent, child, Contains) in edges
  }

  /** A walk down the hierarchy through at least one Contains edge. */
  ghost predicate Descent(edges: set<Edge>, walk: seq<Id>) {
    |walk| >= 2 && forall i :: 0 <= i < |walk| - 1 ==> Joined(edges, walk[i], walk[i + 1])
  }

  ghost predicate Descends(edges: set<Edge>, from: Id, to: Id) {
    exists walk :: Descent(edges, walk) && walk[0] == from && walk[|walk| - 1] == to
  }

  lemma {:induction false} RankFallsAlongDescent(edges: set<Edge>, rank: Id -> nat, walk: seq<Id>)
    requires Ranked(edges, rank) && Descent(edges, walk)
    ensures rank(walk[0]) > rank(walk[|walk| - 1])
  {
    assert Joined(edges, walk[0], walk[1]);
    if |walk| > 2 {
      var rest := walk[1..];
      forall i | 0 <= i < |rest| - 1
        ensures Joined(edges, rest[i], rest[i + 1])
      {
        assert Joined(edges, walk[i + 1], walk[i + 1 + 1]);
      }
      RankFallsAlongDescent(edges, rank, rest);
    }
  }

  ghost function Below(edges: set<Edge>, id: Id): set<Id> {
    set e | e in edges && Descends(edges, id, e.target) :: e.target
  }

  lemma BelowContainsTarget(edges: set<Edge>, from: Id, to: Id)
    requires Descends(edges, from, to)
    ensures to in Below(edges, from)
  {
    var walk :| Descent(edges, walk) && walk[0] == from && walk[|walk| - 1] == to;
    assert Joined(edges, walk[|walk| - 2], walk[|walk| - 2 + 1]);
    assert Edge(walk[|walk| - 2], to, Contains) in edges;
  }

  lemma DescendsThroughEdge(edges: set<Edge>, parent: Id, child: Id, to: Id)
    requires Joined(edges, parent, child)
    requires child == to || Descends(edges, child, to)
    ensures Descends(edges, parent, to)
  {
    if Descends(edges, child, to) {
      var walk :| Descent(edges, walk) && walk[0] == child && walk[|walk| - 1] == to;
      var longer := [parent] + walk;
      forall i | 0 <= i < |longer| - 1
        ensures Joined(edges, longer[i], longer[i + 1])
      {
        if i > 0 {
          assert Joined(edges, walk[i - 1], walk[i - 1 + 1]);
        }
      }
      assert Descent(edges, longer);
    } else {
      assert Descent(edges, [parent, child]);
    }
  }

  /** A rank exists exactly when no element lies below itself. */
  lemma AcyclicMeansNoCycle(edges: set<Edge>)
    ensures Acyclic(edges) <==> forall id :: !Descends(edges, id, id)
  {
    if Acyclic(edges) {
      forall id
        ensures !Descends(edges, id, id)
      {
        if Descends(edges, id, id) {
          var walk :| Descent(edges, walk) && walk[0] == id && walk[|walk| - 1] == id;
          RankFallsAlongDescent(edges, RankOf(edges), walk);
          assert false;
        }
      }
    }
    if forall id :: !Descends(edges, id, id) {
      var rank: Id -> nat := (id: Id) => |Below(edges, id)|;
      forall e | e in edges && e.kind == Contains
        ensures rank(e.source) > rank(e.target)
      {
        assert Joined(edges, e.source, e.target);
        forall x | x in Below(edges, e.target) + {e.target}
          ensures x in Below(edges, e.source)
        {
          DescendsThroughEdge(edges, e.source, e.target, x);
          BelowContainsTarget(edges, e.source, x);
        }
        assert e.target !in Below(edges, e.target);
        SubsetIsNoLarger(Below(edges, e.target) + {e.target}, Below(edges, e.source));
      }
      assert Ranked(edges, rank);
    }
  }

  /** A set that holds what `from` leads to, and what its own members lead to, holds all below `from`. */
  lemma {:induction false} ClosedSetHoldsDescent(edges: set<Edge>, closed: set<Id>, walk: seq<Id>)
    requires Descent(edges, walk)
    requires forall x, y :: (x == walk[0] || x in closed) && Joined(edges, x, y) ==> y in closed
    ensures walk[|walk| - 1] in closed
    decreases |walk|
  {
    assert Joined(edges, walk[0], walk[0 + 1]);
    if |walk| > 2 {
      var rest := walk[1..];
      forall i | 0 <= i < |rest| - 1
        ensures Joined(edges, rest[i], rest[i + 1])
      {
        assert Joined(edges, walk[i + 1], walk[i + 1 + 1]);
      }
      ClosedSetHoldsDescent(edges, closed, rest);
    }
  }

  lemma ClosedSetHoldsAllBelow(edges: set<Edge>, closed: set<Id>, from: Id)
    requires forall x, y :: (x == from || x in closed) && Joined(edges, x, y) ==> y in closed
    ensures forall x :: Descends(edges, from, x) ==> x in closed
  {
    forall x | Descends(edges, from, x)
      ensures x in closed
    {
      var walk :| Descent(edges, walk) && walk[0] == from && walk[|walk| - 1] == x;
      ClosedSetHoldsDescent(edges, closed, walk);
    }
  }

  lemma DescendsFurther(edges: set<Edge>, from: Id, via: Id, to: Id)
    requires (from == via || Descends(edges, from, via)) && Joined(edges, via, to)
    ensures Descends(edges, from, to)
  {
    if from == via {
      assert Descent(edges, [from, to]);
    } else {
      var walk :| Descent(edges, walk) && walk[0] == from && walk[|walk| - 1] == via;
      var longer := walk + [to];
      forall i | 0 <= i < |longer| - 1
        ensures Joined(edges, longer[i], longer[i + 1])
      {
        if i < |walk| - 1 {
          assert Joined(edges, walk[i], walk[i + 1]);
        }
      }
      assert Descent(edges, longer);
    }
  }

  lemma {:induction false} SubsetIsNoLarger<T>(a: set<T>, b: set<T>)
    requires a <= b
    ensures |a| <= |b|
  {
    if a != {} {
      var x :| x in a;
      SubsetIsNoLarger(a - {x}, b - {x});
    }
  }
}
