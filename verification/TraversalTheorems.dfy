/** What a budgeted search promises: distances are those of shortest walks, the budget bounds every level,
    an uncapped search is exact, and the order of the stored rows never shows. */
module TraversalTheorems {
  import opened SysmlModel
  import opened Ordering
  import opened Traversal
  import Containment

  // ----- Levels are lengths of walks -----

  ghost predicate Walk(next: Id -> seq<Link>, walk: seq<Id>) {
    walk != [] && forall i :: 0 <= i < |walk| - 1 ==> Leads(next, walk[i], walk[i + 1])
  }

  predicate Leads(next: Id -> seq<Link>, x: Id, y: Id) {
    y in IdsOf(next(x))
  }

  ghost predicate WalkTo(next: Id -> seq<Link>, root: Id, id: Id, walk: seq<Id>) {
    Walk(next, walk) && walk[0] == root && walk[|walk| - 1] == id
  }

  lemma AroundIsLed(next: Id -> seq<Link>, from: set<Id>, y: Id)
    ensures y in Around(next, from) <==> exists x :: x in from && Leads(next, x, y)
  {
    if y in Around(next, from) {
      var x, l :| x in from && l in next(x) && l.id == y;
      assert Leads(next, x, y);
    }
  }

  lemma {:induction false} WalksStayWithin(next: Id -> seq<Link>, root: Id, walk: seq<Id>)
    requires Walk(next, walk) && walk[0] == root
    ensures walk[|walk| - 1] in Within(next, root, |walk| - 1)
    decreases |walk|
  {
    hide Around, Leads;
    var n := |walk| - 1;
    if n > 0 {
      var init := walk[..n];
      forall i | 0 <= i < |init| - 1
        ensures Leads(next, init[i], init[i + 1])
      {
        assert Leads(next, walk[i], walk[i + 1]);
      }
      WalksStayWithin(next, root, init);
      assert Leads(next, walk[n - 1], walk[n - 1 + 1]);
      AroundIsLed(next, Within(next, root, n - 1), walk[n]);
    }
  }

  lemma {:induction false} WithinHasWalk(next: Id -> seq<Link>, root: Id, hops: nat, id: Id) returns (walk: seq<Id>)
    requires id in Within(next, root, hops)
    ensures |walk| <= hops + 1 && WalkTo(next, root, id, walk)
    decreases hops
  {
    hide Around, Leads;
    if hops == 0 {
      walk := [root];
    } else if id in Within(next, root, hops - 1) {
      walk := WithinHasWalk(next, root, hops - 1, id);
    } else {
      AroundIsLed(next, Within(next, root, hops - 1), id);
      var x :| x in Within(next, root, hops - 1) && Leads(next, x, id);
      var init := WithinHasWalk(next, root, hops - 1, x);
      walk := init + [id];
      forall i | 0 <= i < |walk| - 1
        ensures Leads(next, walk[i], walk[i + 1])
      {
        if i < |init| - 1 {
          assert Leads(next, init[i], init[i + 1]);
        }
      }
    }
  }

  /** What lies within so many hops is what some walk no longer than that leads to. */
  lemma WithinMeansWalk(next: Id -> seq<Link>, root: Id, hops: nat, id: Id)
    ensures id in Within(next, root, hops) <==> exists walk :: |walk| <= hops + 1 && WalkTo(next, root, id, walk)
  {
    hide Within;
    if id in Within(next, root, hops) {
      var walk := WithinHasWalk(next, root, hops, id);
    }
    if walk :| |walk| <= hops + 1 && WalkTo(next, root, id, walk) {
      WalksStayWithin(next, root, walk);
      WithinGrows(next, root, |walk| - 1, hops);
    }
  }

  /** The recorded distance is that of a shortest walk. */
  lemma RecordedHopsAreShortest(next: Id -> seq<Link>, root: Id, id: Id, found: Found, walk: seq<Id>)
    requires RightlyFound(next, root, id, found) && WalkTo(next, root, id, walk)
    ensures found.hops <= |walk| - 1
    ensures exists shortest :: WalkTo(next, root, id, shortest) && |shortest| == found.hops + 1
  {
    hide Around;
    WalksStayWithin(next, root, walk);
    if |walk| - 1 < found.hops {
      WithinGrows(next, root, |walk| - 1, found.hops - 1);
    }
    var shortest := WithinHasWalk(next, root, found.hops, id);
    WalksStayWithin(next, root, shortest);
    if |shortest| - 1 < found.hops {
      WithinGrows(next, root, |shortest| - 1, found.hops - 1);
    }
  }

  // ----- The budget -----

  function Power(base: nat, exponent: nat): nat {
    if exponent == 0 then 1 else base * Power(base, exponent - 1)
  }

  lemma {:induction false} FewIds(links: seq<Link>)
    ensures |IdsOf(links)| <= |links|
  {
    if links == [] {
      assert IdsOf(links) == {};
    } else {
      var init, last := links[..|links| - 1], links[|links| - 1];
      FewIds(init);
      assert links == init + [last];
      assert IdsOf(links) == IdsOf(init) + {last.id};
    }
  }

  lemma {:induction false} FewAround(next: Id -> seq<Link>, from: set<Id>, most: nat)
    requires forall x :: x in from ==> |next(x)| <= most
    ensures |Around(next, from)| <= |from| * most
    decreases from
  {
    if from == {} {
      NothingAround(next);
    } else {
      hide Around, IdsOf;
      var x :| x in from;
      var rest := from - {x};
      FewAround(next, rest, most);
      AroundOneMore(next, rest, x);
      assert rest + {x} == from;
      FewIds(next(x));
      assert |from| * most == |rest| * most + most;
    }
  }

  lemma NextLevelIsAround(next: Id -> seq<Link>, root: Id, hops: nat)
    ensures Level(next, root, hops + 1) <= Around(next, Level(next, root, hops))
  {
    hide Around;
    NewestLevelLeadsOn(next, root, hops);
  }

  lemma KeptIsShort(q: Query, from: set<Id>)
    ensures forall x :: x in from ==> |Kept1(q)(x)| <= q.maxFanout
  {
  }

  /** No more than the fan-out to the power of the distance are found at a distance. */
  lemma {:induction false} LevelsAreBounded(q: Query, root: Id, hops: nat)
    ensures |Level(Kept1(q), root, hops)| <= Power(q.maxFanout, hops)
  {
    hide Around, Within, Level, Kept1, Kept, Power;
    var next := Kept1(q);
    if hops == 0 {
      OneRoot(next, root, q.maxFanout);
    } else {
      LevelsAreBounded(q, root, hops - 1);
      var before := Level(next, root, hops - 1);
      NextLevelIsAround(next, root, hops - 1);
      KeptIsShort(q, before);
      FewAround(next, before, q.maxFanout);
      Containment.SubsetIsNoLarger(Level(next, root, hops), Around(next, before));
      Times(|Level(next, root, hops)|, |before|, q.maxFanout, hops);
    }
  }

  lemma OneRoot(next: Id -> seq<Link>, root: Id, most: nat)
    ensures |Level(next, root, 0)| == 1 == Power(most, 0)
  {
  }

  lemma Times(size: nat, before: nat, most: nat, hops: nat)
    requires hops > 0 && size <= before * most && before <= Power(most, hops - 1)
    ensures size <= Power(most, hops)
  {
    var p := Power(most, hops - 1);
    assert Power(most, hops) == most * p;
    assert before * most <= p * most;
  }

  // ----- Searches that were not cut short -----

  lemma SortKeepsIds(links: seq<Link>)
    ensures IdsOf(SortBy(LinkKey, links)) == IdsOf(links)
  {
    assert forall l :: l in links <==> l in multiset(links);
    assert forall l :: l in SortBy(LinkKey, links) <==> l in multiset(SortBy(LinkKey, links));
  }

  lemma KeptIsAll(q: Query, id: Id)
    requires |All(q, id)| <= q.maxFanout
    ensures IdsOf(Kept(q, id)) == IdsOf(All(q, id))
  {
    SortKeepsIds(All(q, id));
  }

  lemma SameAround(q: Query, from: set<Id>)
    requires !Overfull(q, from)
    ensures Around(Kept1(q), from) == Around(All1(q), from)
  {
    hide Kept, All, IdsOf;
    forall y
      ensures y in Around(Kept1(q), from) <==> y in Around(All1(q), from)
    {
      AroundIsLed(Kept1(q), from, y);
      AroundIsLed(All1(q), from, y);
      forall x | x in from
        ensures Leads(Kept1(q), x, y) <==> Leads(All1(q), x, y)
      {
        KeptIsAll(q, x);
      }
    }
  }

  /** A search that met no element with too many neighbours found what there is in the whole graph. */
  lemma {:induction false} UncutSearchIsExact(q: Query, root: Id, depth: nat)
    requires !Overfull(q, Asked(Kept1(q), root, depth))
    ensures Within(Kept1(q), root, depth) == Within(All1(q), root, depth)
    decreases depth
  {
    hide Around, Kept1, All1, Kept, All;
    if depth > 0 {
      if depth > 1 {
        WithinGrows(Kept1(q), root, depth - 2, depth - 1);
      }
      assert Asked(Kept1(q), root, depth - 1) <= Asked(Kept1(q), root, depth);
      FewerOverfull(q, Asked(Kept1(q), root, depth - 1), Asked(Kept1(q), root, depth));
      UncutSearchIsExact(q, root, depth - 1);
      SameAround(q, Within(Kept1(q), root, depth - 1));
    }
  }

  lemma FewerOverfull(q: Query, fewer: set<Id>, ids: set<Id>)
    requires fewer <= ids && !Overfull(q, ids)
    ensures !Overfull(q, fewer)
  {
  }

  // ----- The order of rows -----

  function IdList(links: seq<Link>): (ids: seq<Id>)
    ensures |ids| == |links|
  {
    seq(|links|, i requires 0 <= i < |links| => links[i].id)
  }

  lemma IdListCons(l: Link, links: seq<Link>)
    ensures IdList([l] + links) == [l.id] + IdList(links)
  {
  }

  lemma {:induction false} InsertById(l: Link, links: seq<Link>)
    ensures IdList(InsertBy(LinkKey, l, links)) == InsertBy(Self, l.id, IdList(links))
  {
    hide IdList, Leq;
    if links == [] {
      IdListCons(l, links);
      assert IdList(links) == [];
    } else {
      assert links == [links[0]] + links[1..];
      IdListCons(links[0], links[1..]);
      IdListCons(l, links);
      InsertById(l, links[1..]);
      IdListCons(links[0], InsertBy(LinkKey, l, links[1..]));
    }
  }

  /** Sorting links by id sorts their ids. */
  lemma {:induction false} SortById(links: seq<Link>)
    ensures IdList(SortBy(LinkKey, links)) == SortBy(Self, IdList(links))
  {
    hide IdList, InsertBy;
    if links != [] {
      SortById(links[1..]);
      InsertById(links[0], SortBy(LinkKey, links[1..]));
      IdListCons(links[0], links[1..]);
      assert links == [links[0]] + links[1..];
    }
  }

  lemma Snoc<T>(s: seq<T>)
    requires s != []
    ensures multiset(s) == multiset(s[..|s| - 1]) + multiset{s[|s| - 1]}
  {
    assert s == s[..|s| - 1] + [s[|s| - 1]];
  }

  lemma {:induction false} LinksInCount(edges: seq<Edge>, id: Id, l: Link)
    ensures multiset(LinksIn(edges, id))[l] == if Traced(l.kind) then multiset(edges)[Edge(l.id, id, l.kind)] else 0
  {
    if edges != [] {
      LinksInCount(edges[..|edges| - 1], id, l);
      Snoc(edges);
    }
  }

  lemma {:induction false} LinksOutCount(edges: seq<Edge>, id: Id, l: Link)
    ensures multiset(LinksOut(edges, id))[l] == if Traced(l.kind) then multiset(edges)[Edge(id, l.id, l.kind)] else 0
  {
    if edges != [] {
      LinksOutCount(edges[..|edges| - 1], id, l);
      Snoc(edges);
    }
  }

  lemma SameNeighbours(edges: seq<Edge>, edges': seq<Edge>, direction: Direction, id: Id)
    requires multiset(edges) == multiset(edges')
    ensures multiset(Neighbours(edges, direction, id)) == multiset(Neighbours(edges', direction, id))
  {
    forall l
      ensures multiset(LinksIn(edges, id))[l] == multiset(LinksIn(edges', id))[l]
      ensures multiset(LinksOut(edges, id))[l] == multiset(LinksOut(edges', id))[l]
    {
      LinksInCount(edges, id, l);
      LinksInCount(edges', id, l);
      LinksOutCount(edges, id, l);
      LinksOutCount(edges', id, l);
    }
    assert multiset(LinksIn(edges, id)) == multiset(LinksIn(edges', id));
    assert multiset(LinksOut(edges, id)) == multiset(LinksOut(edges', id));
  }

  function OneOut<T>(s: seq<T>, i: nat): seq<T>
    requires i < |s|
  {
    s[..i] + s[i + 1..]
  }

  lemma TakeOutOne<T>(s: seq<T>, i: nat)
    requires i < |s|
    ensures multiset(s) == multiset(OneOut(s, i)) + multiset{s[i]}
  {
    assert s == (s[..i] + [s[i]]) + s[i + 1..];
  }

  lemma TakeOut(links: seq<Link>, i: nat)
    requires i < |links|
    ensures multiset(OneOut(links, i)) == multiset(links) - multiset{links[i]}
    ensures multiset(IdList(links)) == multiset(IdList(OneOut(links, i))) + multiset{links[i].id}
  {
    TakeOutOne(links, i);
    TakeOutOne(IdList(links), i);
    assert IdList(OneOut(links, i)) == OneOut(IdList(links), i);
  }

  lemma {:induction false} SameIdCounts(links: seq<Link>, links': seq<Link>)
    requires multiset(links) == multiset(links')
    ensures multiset(IdList(links)) == multiset(IdList(links'))
    decreases |links|
  {
    if links == [] {
      assert |multiset(links')| == 0;
    } else {
      var last := links[|links| - 1];
      assert last in multiset(links');
      var i :| 0 <= i < |links'| && links'[i] == last;
      TakeOut(links, |links| - 1);
      TakeOut(links', i);
      SameIdCounts(OneOut(links, |links| - 1), OneOut(links', i));
    }
  }

  lemma SameKept(edges: seq<Edge>, edges': seq<Edge>, direction: Direction, maxFanout: nat, id: Id)
    requires multiset(edges) == multiset(edges')
    ensures IdsOf(Kept(Query(edges, direction, maxFanout), id)) == IdsOf(Kept(Query(edges', direction, maxFanout), id))
  {
    hide Neighbours, IdsOf, IdList, SortBy, LinkKey;
    var a, b := Neighbours(edges, direction, id), Neighbours(edges', direction, id);
    SameNeighbours(edges, edges', direction, id);
    SameIdCounts(a, b);
    SortById(a);
    SortById(b);
    SortIdsOrderFree(IdList(a), IdList(b));
    assert |a| == |multiset(a)| == |multiset(b)| == |b|;
    SameIds(Capped(a, maxFanout), Capped(b, maxFanout), SortBy(LinkKey, a), SortBy(LinkKey, b));
  }

  lemma SameIds(a: seq<Link>, b: seq<Link>, wholeA: seq<Link>, wholeB: seq<Link>)
    requires |a| == |b| && a <= wholeA && b <= wholeB && IdList(wholeA) == IdList(wholeB)
    ensures IdsOf(a) == IdsOf(b)
  {
    forall i | 0 <= i < |a|
      ensures a[i].id == b[i].id
    {
      assert IdList(wholeA)[i] == IdList(wholeB)[i];
    }
  }

  /** Which elements a search finds, and how far away, does not depend on the order of the rows. */
  lemma {:induction false} SearchIgnoresRowOrder(edges: seq<Edge>, edges': seq<Edge>, direction: Direction,
                                                 maxFanout: nat, root: Id, hops: nat)
    requires multiset(edges) == multiset(edges')
    ensures Within(Kept1(Query(edges, direction, maxFanout)), root, hops)
         == Within(Kept1(Query(edges', direction, maxFanout)), root, hops)
  {
    hide Kept, Around, IdsOf;
    if hops > 0 {
      var q, q' := Query(edges, direction, maxFanout), Query(edges', direction, maxFanout);
      SearchIgnoresRowOrder(edges, edges', direction, maxFanout, root, hops - 1);
      var from := Within(Kept1(q), root, hops - 1);
      forall y
        ensures y in Around(Kept1(q), from) <==> y in Around(Kept1(q'), from)
      {
        AroundIsLed(Kept1(q), from, y);
        AroundIsLed(Kept1(q'), from, y);
        forall x | x in from
          ensures Leads(Kept1(q), x, y) <==> Leads(Kept1(q'), x, y)
        {
          SameKept(edges, edges', direction, maxFanout, x);
        }
      }
    }
  }
}
