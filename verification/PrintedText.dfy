/** Printed text against the graph it was printed from. */
module PrintedText {
  import opened SysmlModel
  import opened Ordering
  import opened Scanning
  import opened TextSyntax
  import opened Containment
  import opened TextPrinter
  import opened TextRoundTrip
  import opened GraphOps
  import opened TextDiff
  import opened DiffAcceptance
  import opened DiffRealisation
  import opened DiffTheorems
  import opened TextSync

  /** The entries of outlines, in reading order. */
  function OutlineEntries(ts: seq<Outline>, parent: Option<Id>): seq<Entry>
    decreases ts
  {
    if ts == [] then []
    else [Entry(ts[0].id, true, ts[0].kind, ts[0].name, parent)] +
         (OutlineEntries(ts[0].children, Some(ts[0].id)) + OutlineEntries(ts[1..], parent))
  }

  lemma {:induction false} ParsedOutlineEntries(ps: seq<ParsedElement>, ts: seq<Outline>, parent: Option<Id>, k: nat)
    requires MatchesAll(ps, ts)
    ensures Entries(ps, parent, k) == OutlineEntries(ts, parent)
    ensures Anchors(ps) == AsAnchors(OutlineEntries(ts, parent))
    decreases ts
  {
    hide *;
    if ts == [] {
      NothingParsed(ps, ts, parent, k);
    } else {
      MatchesSplits(ps, ts);
      var p, t := ps[0], ts[0];
      EntriesSplit(ps, parent, k);
      AnchorsSplit(ps);
      OutlineEntriesSplit(ts, parent);
      RefAndOwn(p, t, k);
      ParsedOutlineEntries(p.children, t.children, Some(t.id), k);
      ParsedOutlineEntries(ps[1..], ts[1..], parent, k + NewCount(p.children));
      var first := Entry(t.id, true, t.kind, t.name, parent);
      var inner, outer := OutlineEntries(t.children, Some(t.id)), OutlineEntries(ts[1..], parent);
      AsAnchorsConcat([first], inner + outer);
      AsAnchorsConcat(inner, outer);
      OneEntry(first);
    }
  }

  lemma NothingParsed(ps: seq<ParsedElement>, ts: seq<Outline>, parent: Option<Id>, k: nat)
    requires ts == [] && MatchesAll(ps, ts)
    ensures Entries(ps, parent, k) == OutlineEntries(ts, parent)
    ensures Anchors(ps) == AsAnchors(OutlineEntries(ts, parent))
  {
  }

  lemma MatchesSplits(ps: seq<ParsedElement>, ts: seq<Outline>)
    requires ts != [] && MatchesAll(ps, ts)
    ensures ps != [] && MatchesAll(ps[1..], ts[1..]) && MatchesAll(ps[0].children, ts[0].children)
    ensures ps[0].kind == ts[0].kind && ps[0].name == ts[0].name && ps[0].anchorId == Some(ts[0].id)
  {
    assert Matches(ps[0], ts[0]);
  }

  lemma OutlineEntriesSplit(ts: seq<Outline>, parent: Option<Id>)
    requires ts != []
    ensures OutlineEntries(ts, parent)
         == [Entry(ts[0].id, true, ts[0].kind, ts[0].name, parent)] +
            (OutlineEntries(ts[0].children, Some(ts[0].id)) + OutlineEntries(ts[1..], parent))
  {
  }

  lemma RefAndOwn(p: ParsedElement, t: Outline, k: nat)
    requires p.anchorId == Some(t.id)
    ensures RefOf(p, k) == t.id && Own(p) == [Anchored(t.id, p.kind)]
  {
  }

  /** The entries printed for some elements and all below them. */
  ghost function Listing(elements: seq<ModelElement>, edges: seq<Edge>, ids: seq<Id>, parent: Option<Id>): seq<Entry>
    requires Printable(elements, edges) && forall id :: id in ids ==> id in ById(elements)
  {
    OutlineEntries(OutlinesOf(elements, edges, ids), parent)
  }

  lemma KidsAreElements(elements: seq<ModelElement>, edges: seq<Edge>, id: Id)
    requires Printable(elements, edges)
    ensures forall child :: child in SortedChildren(edges, id) <==> Edge(id, child, Contains) in edges
    ensures forall child :: child in SortedChildren(edges, id) ==>
              child in ById(elements) && RankOf(EdgeSet(edges))(id) > RankOf(EdgeSet(edges))(child)
  {
    hide ById, RankOf, ChildrenOf;
    var kids := SortedChildren(edges, id);
    assert forall child :: child in kids <==> child in multiset(kids);
    forall child
      ensures child in kids <==> Edge(id, child, Contains) in edges
      ensures child in kids ==> child in ById(elements) && RankOf(EdgeSet(edges))(id) > RankOf(EdgeSet(edges))(child)
    {
      ChildrenAreTargets(edges, id, child);
      if child in kids {
        var i :| 0 <= i < |kids| && kids[i] == child;
        ChildIsLower(elements, edges, id, i);
      }
    }
  }

  function EntryFor(elements: seq<ModelElement>, id: Id, parent: Option<Id>): Entry
    requires id in ById(elements)
  {
    Entry(id, true, ById(elements)[id].kind, ById(elements)[id].name, parent)
  }

  lemma ListingSplits(elements: seq<ModelElement>, edges: seq<Edge>, ids: seq<Id>, parent: Option<Id>)
    requires Printable(elements, edges) && (forall id :: id in ids ==> id in ById(elements)) && ids != []
    requires forall child :: child in SortedChildren(edges, ids[0]) ==> child in ById(elements)
    ensures Listing(elements, edges, ids, parent)
         == [EntryFor(elements, ids[0], parent)] +
            (Listing(elements, edges, SortedChildren(edges, ids[0]), Some(ids[0])) +
             Listing(elements, edges, ids[1..], parent))
  {
    hide ById, SortedChildren, Printable, RankOf, EdgeSet;
    var ts := OutlinesOf(elements, edges, ids);
    assert ts[1..] == OutlinesOf(elements, edges, ids[1..]);
    assert ts[0].children == OutlinesOf(elements, edges, SortedChildren(edges, ids[0]));
  }

  // ----- Every printed entry repeats the graph -----

  /** The entry is an element of the graph, listed under one of its parents or, at the top, under `parent`. */
  ghost predicate Repeats(elements: seq<ModelElement>, edges: seq<Edge>, ids: seq<Id>, parent: Option<Id>, e: Entry) {
    && e.ref in ById(elements) && e == EntryFor(elements, e.ref, e.parent)
    && ((e.ref in ids && e.parent == parent) || exists p :: e.parent == Some(p) && Edge(p, e.ref, Contains) in edges)
  }

  lemma {:induction false} ListingRepeats(elements: seq<ModelElement>, edges: seq<Edge>, ids: seq<Id>,
                                          parent: Option<Id>, bound: nat)
    requires Printable(elements, edges)
    requires forall id :: id in ids ==> id in ById(elements) && RankOf(EdgeSet(edges))(id) < bound
    ensures forall e :: e in Listing(elements, edges, ids, parent) ==> Repeats(elements, edges, ids, parent, e)
    decreases bound, |ids|
  {
    hide ById, SortedChildren, Closed, Acyclic, RankOf, Listing, EntryFor;
    if ids == [] {
      NothingListed(elements, edges, parent);
    } else {
      var kids := SortedChildren(edges, ids[0]);
      KidsAreElements(elements, edges, ids[0]);
      ListingSplits(elements, edges, ids, parent);
      ListingRepeats(elements, edges, kids, Some(ids[0]), RankOf(EdgeSet(edges))(ids[0]));
      ListingRepeats(elements, edges, ids[1..], parent, bound);
      EntryForIs(elements, ids[0], parent);
      forall e | e in Listing(elements, edges, kids, Some(ids[0]))
        ensures exists p :: e.parent == Some(p) && Edge(p, e.ref, Contains) in edges
      {
        assert Repeats(elements, edges, kids, Some(ids[0]), e);
      }
    }
  }

  lemma EntryForIs(elements: seq<ModelElement>, id: Id, parent: Option<Id>)
    requires id in ById(elements)
    ensures EntryFor(elements, id, parent).ref == id && EntryFor(elements, id, parent).parent == parent
    ensures EntryFor(elements, id, parent).known
  {
  }

  lemma NothingListed(elements: seq<ModelElement>, edges: seq<Edge>, parent: Option<Id>)
    requires Printable(elements, edges)
    ensures Listing(elements, edges, [], parent) == []
  {
    hide Printable;
  }

  // ----- Every element is printed under each of its parents -----

  lemma {:induction false} ListingCovers(elements: seq<ModelElement>, edges: seq<Edge>, ids: seq<Id>,
                                         parent: Option<Id>, bound: nat)
    requires Printable(elements, edges)
    requires forall id :: id in ids ==> id in ById(elements) && RankOf(EdgeSet(edges))(id) < bound
    ensures var listing := Listing(elements, edges, ids, parent);
            && (forall id :: id in ids ==> EntryFor(elements, id, parent) in listing)
            && (forall e, child :: e in listing && Edge(e.ref, child, Contains) in edges ==>
                  child in ById(elements) && EntryFor(elements, child, Some(e.ref)) in listing)
    decreases bound, |ids|
  {
    hide ById, SortedChildren, Closed, Acyclic, RankOf, Listing, EntryFor;
    if ids == [] {
      NothingListed(elements, edges, parent);
    } else {
      var kids := SortedChildren(edges, ids[0]);
      KidsAreElements(elements, edges, ids[0]);
      ListingSplits(elements, edges, ids, parent);
      EntryForIs(elements, ids[0], parent);
      ListingCovers(elements, edges, kids, Some(ids[0]), RankOf(EdgeSet(edges))(ids[0]));
      ListingCovers(elements, edges, ids[1..], parent, bound);
    }
  }

  ghost function Printed(elements: seq<ModelElement>, edges: seq<Edge>): seq<Entry>
    requires Printable(elements, edges)
  {
    Listing(elements, edges, SortedRoots(elements, edges), None)
  }

  /** A bound on the rank of everything that contains something. */
  lemma {:induction false} SourceBound(edges: set<Edge>, rank: Id -> nat) returns (bound: nat)
    ensures forall e :: e in edges ==> rank(e.source) < bound
  {
    if edges == {} {
      bound := 0;
    } else {
      var e :| e in edges;
      bound := SourceBound(edges - {e}, rank);
      bound := bound + rank(e.source) + 1;
    }
  }

  lemma RanksBounded(ids: set<Id>, rank: Id -> nat) returns (bound: nat)
    ensures forall id :: id in ids ==> rank(id) < bound
  {
    if ids == {} {
      bound := 0;
    } else {
      var id :| id in ids;
      bound := RanksBounded(ids - {id}, rank);
      bound := bound + rank(id) + 1;
    }
  }

  lemma RootsAreRanked(elements: seq<ModelElement>, edges: seq<Edge>) returns (bound: nat)
    requires Printable(elements, edges)
    ensures forall id :: id in SortedRoots(elements, edges) ==>
              id in ById(elements) && id !in Contained(edges) && RankOf(EdgeSet(edges))(id) < bound
  {
    hide ById, SortedRoots, Contained, Closed, Acyclic, RankOf;
    bound := RanksBounded(ById(elements).Keys, RankOf(EdgeSet(edges)));
  }

  lemma PrintedCovers(elements: seq<ModelElement>, edges: seq<Edge>)
    requires Printable(elements, edges)
    ensures forall id :: id in SortedRoots(elements, edges) ==>
            id in ById(elements) && EntryFor(elements, id, None) in Printed(elements, edges)
    ensures forall e, child :: e in Printed(elements, edges) && Edge(e.ref, child, Contains) in edges ==>
              child in ById(elements) && EntryFor(elements, child, Some(e.ref)) in Printed(elements, edges)
  {
    hide ById, SortedRoots, Contained, Closed, Acyclic, RankOf, Listing, EntryFor;
    var bound := RootsAreRanked(elements, edges);
    ListingCovers(elements, edges, SortedRoots(elements, edges), None, bound);
  }

  lemma {:induction false} ElementIsPrinted(elements: seq<ModelElement>, edges: seq<Edge>, id: Id, bound: nat)
    requires Printable(elements, edges) && id in ById(elements)
    requires forall e :: e in EdgeSet(edges) ==> RankOf(EdgeSet(edges))(e.source) < bound
    ensures exists parent :: EntryFor(elements, id, parent) in Printed(elements, edges)
    decreases if RankOf(EdgeSet(edges))(id) < bound then bound - RankOf(EdgeSet(edges))(id) else 0
  {
    hide ById, SortedRoots, Acyclic, RankOf, Listing, Printed, EntryFor;
    PrintedCovers(elements, edges);
    if id in Contained(edges) {
      var x :| x in edges && x.kind == Contains && x.target == id;
      assert x in EdgeSet(edges) && x == Edge(x.source, id, Contains);
      ElementIsPrinted(elements, edges, x.source, bound);
      var parent :| EntryFor(elements, x.source, parent) in Printed(elements, edges);
      EntryForIs(elements, x.source, parent);
      assert EntryFor(elements, id, Some(x.source)) in Printed(elements, edges);
    } else {
      assert EntryFor(elements, id, None) in Printed(elements, edges);
    }
  }

  /** Each element is printed, and under each of its parents. */
  lemma EveryParentIsPrinted(elements: seq<ModelElement>, edges: seq<Edge>)
    requires Printable(elements, edges)
    ensures RefSet(Printed(elements, edges)) == ById(elements).Keys
    ensures forall p, id :: Edge(p, id, Contains) in edges ==>
            id in ById(elements) && EntryFor(elements, id, Some(p)) in Printed(elements, edges)
  {
    hide ById, SortedRoots, Acyclic, RankOf, Listing, Printed, EntryFor;
    PrintedCovers(elements, edges);
    var bound := SourceBound(EdgeSet(edges), RankOf(EdgeSet(edges)));
    forall id | id in ById(elements)
      ensures id in RefSet(Printed(elements, edges))
    {
      ElementIsPrinted(elements, edges, id, bound);
      var parent :| EntryFor(elements, id, parent) in Printed(elements, edges);
      EntryForIs(elements, id, parent);
    }
    PrintedRepeats(elements, edges);
    forall p, id | Edge(p, id, Contains) in edges
      ensures id in ById(elements) && EntryFor(elements, id, Some(p)) in Printed(elements, edges)
    {
      ElementIsPrinted(elements, edges, p, bound);
      var parent :| EntryFor(elements, p, parent) in Printed(elements, edges);
      EntryForIs(elements, p, parent);
    }
  }

  lemma PrintedRepeats(elements: seq<ModelElement>, edges: seq<Edge>)
    requires Printable(elements, edges)
    ensures forall e :: e in Printed(elements, edges) ==>
              e.ref in ById(elements) && Repeats(elements, edges, SortedRoots(elements, edges), None, e)
  {
    hide ById, SortedRoots, Contained, Closed, Acyclic, RankOf, Listing, EntryFor;
    var bound := RootsAreRanked(elements, edges);
    ListingRepeats(elements, edges, SortedRoots(elements, edges), None, bound);
  }

  // ----- In a forest nothing is printed twice -----

  ghost predicate Within(edges: set<Edge>, a: Id, x: Id) {
    a == x || Descends(edges, a, x)
  }

  lemma LastStep(edges: set<Edge>, a: Id, x: Id) returns (q: Id)
    requires Descends(edges, a, x)
    ensures Joined(edges, q, x) && Within(edges, a, q)
  {
    var walk :| Descent(edges, walk) && walk[0] == a && walk[|walk| - 1] == x;
    q := walk[|walk| - 2];
    assert Joined(edges, walk[|walk| - 2], walk[|walk| - 2 + 1]);
    if |walk| > 2 {
      var shorter := walk[..|walk| - 1];
      forall i | 0 <= i < |shorter| - 1
        ensures Joined(edges, shorter[i], shorter[i + 1])
      {
        assert Joined(edges, walk[i], walk[i + 1]);
      }
      assert Descent(edges, shorter);
    }
  }

  lemma RankFallsBelow(edges: set<Edge>, a: Id, x: Id)
    requires Acyclic(edges) && Descends(edges, a, x)
    ensures RankOf(edges)(a) > RankOf(edges)(x)
  {
    var walk :| Descent(edges, walk) && walk[0] == a && walk[|walk| - 1] == x;
    RankFallsAlongDescent(edges, RankOf(edges), walk);
  }

  /** With single parents, two elements above a common one lie one above the other. */
  lemma {:induction false} AncestorsAreComparable(edges: set<Edge>, a: Id, b: Id, x: Id, bound: nat)
    requires Acyclic(edges) && SingleParent(edges) && Within(edges, a, x) && Within(edges, b, x)
    requires forall e :: e in edges ==> RankOf(edges)(e.source) < bound
    ensures Within(edges, a, b) || Within(edges, b, a)
    decreases if RankOf(edges)(x) < bound then bound - RankOf(edges)(x) else 0
  {
    hide Descends, Acyclic, RankOf;
    if a != x && b != x {
      var q := LastStep(edges, a, x);
      var r := LastStep(edges, b, x);
      assert Edge(q, x, Contains) in edges && Edge(r, x, Contains) in edges;
      AncestorsAreComparable(edges, a, b, q, bound);
    }
  }

  /** Elements with the same parents, or both with none, have nothing in common below them. */
  lemma SiblingsApart(edges: set<Edge>, a: Id, b: Id, x: Id, bound: nat)
    requires Acyclic(edges) && SingleParent(edges) && a != b
    requires forall p :: Joined(edges, p, a) <==> Joined(edges, p, b)
    requires forall e :: e in edges ==> RankOf(edges)(e.source) < bound
    ensures !(Within(edges, a, x) && Within(edges, b, x))
  {
    hide Descends, Acyclic, RankOf, Joined, SingleParent;
    if Within(edges, a, x) && Within(edges, b, x) {
      AncestorsAreComparable(edges, a, b, x, bound);
      if Within(edges, a, b) {
        NotBelowSibling(edges, a, b);
      } else {
        NotBelowSibling(edges, b, a);
      }
    }
  }

  lemma NotBelowSibling(edges: set<Edge>, a: Id, b: Id)
    requires Acyclic(edges) && a != b
    requires forall p :: Joined(edges, p, a) <==> Joined(edges, p, b)
    ensures !Within(edges, a, b)
  {
    hide Descends, Acyclic;
    if Descends(edges, a, b) {
      var q := LastStep(edges, a, b);
      assert Joined(edges, q, a);
      assert Edge(q, a, Contains) in edges;
      assert RankOf(edges)(q) > RankOf(edges)(a);
      if q != a {
        RankFallsBelow(edges, a, q);
      }
      assert false;
    }
  }

  ghost predicate AllApart(edges: set<Edge>, ids: seq<Id>) {
    forall a, b, x :: a in ids && b in ids && a != b ==> !(Within(edges, a, x) && Within(edges, b, x))
  }

  /** None of `seen` lies at or below one of the ids. */
  ghost predicate Clear(edges: set<Edge>, ids: seq<Id>, seen: set<Id>) {
    forall a, x :: a in ids && x in seen ==> !Within(edges, a, x)
  }

  lemma BelowKid(edges: set<Edge>, p: Id, kid: Id, x: Id)
    requires Edge(p, kid, Contains) in edges && Within(edges, kid, x)
    ensures Within(edges, p, x)
  {
    hide Descends;
    DescendsThroughEdge(edges, p, kid, x);
  }

  lemma {:induction false} ListingWithin(elements: seq<ModelElement>, edges: seq<Edge>, ids: seq<Id>,
                                         parent: Option<Id>, bound: nat)
    requires Printable(elements, edges)
    requires forall id :: id in ids ==> id in ById(elements) && RankOf(EdgeSet(edges))(id) < bound
    ensures forall e :: e in Listing(elements, edges, ids, parent) ==>
            exists a :: a in ids && Within(EdgeSet(edges), a, e.ref)
    decreases bound, |ids|
  {
    hide ById, SortedChildren, Closed, Acyclic, RankOf, Listing, EntryFor, Descends;
    if ids == [] {
      NothingListed(elements, edges, parent);
    } else {
      var kids := SortedChildren(edges, ids[0]);
      KidsAreElements(elements, edges, ids[0]);
      ListingSplits(elements, edges, ids, parent);
      ListingWithin(elements, edges, kids, Some(ids[0]), RankOf(EdgeSet(edges))(ids[0]));
      ListingWithin(elements, edges, ids[1..], parent, bound);
      EntryForIs(elements, ids[0], parent);
      forall e | e in Listing(elements, edges, kids, Some(ids[0]))
        ensures Within(EdgeSet(edges), ids[0], e.ref)
      {
        var kid :| kid in kids && Within(EdgeSet(edges), kid, e.ref);
        assert Edge(ids[0], kid, Contains) in EdgeSet(edges);
        BelowKid(EdgeSet(edges), ids[0], kid, e.ref);
      }
      assert Within(EdgeSet(edges), ids[0], ids[0]);
    }
  }

  lemma KidsApart(elements: seq<ModelElement>, edges: seq<Edge>, id: Id, top: nat)
    requires Printable(elements, edges) && SingleParent(EdgeSet(edges))
    requires forall e :: e in EdgeSet(edges) ==> RankOf(EdgeSet(edges))(e.source) < top
    ensures AllApart(EdgeSet(edges), SortedChildren(edges, id))
  {
    hide ById, SortedChildren, Closed, Acyclic, RankOf, Descends, Within;
    var kids := SortedChildren(edges, id);
    KidsAreElements(elements, edges, id);
    forall a, b, x | a in kids && b in kids && a != b
      ensures !(Within(EdgeSet(edges), a, x) && Within(EdgeSet(edges), b, x))
    {
      assert Edge(id, a, Contains) in EdgeSet(edges) && Edge(id, b, Contains) in EdgeSet(edges);
      SiblingsApart(EdgeSet(edges), a, b, x, top);
    }
  }

  lemma KidsClear(elements: seq<ModelElement>, edges: seq<Edge>, id: Id, seen: set<Id>)
    requires Printable(elements, edges) && Clear(EdgeSet(edges), [id], seen)
    ensures Clear(EdgeSet(edges), SortedChildren(edges, id), seen + {id})
  {
    hide ById, SortedChildren, Closed, Acyclic, Descends;
    var kids := SortedChildren(edges, id);
    KidsAreElements(elements, edges, id);
    forall kid, x | kid in kids && x in seen + {id}
      ensures !Within(EdgeSet(edges), kid, x)
    {
      assert Edge(id, kid, Contains) in EdgeSet(edges);
      if Within(EdgeSet(edges), kid, x) {
        BelowKid(EdgeSet(edges), id, kid, x);
        assert id in [id];
        assert x == id;
        RankFallsBelow(EdgeSet(edges), kid, id);
        assert false;
      }
    }
  }

  lemma {:induction false} ChildrenAreDistinct(edges: seq<Edge>, id: Id)
    requires Distinct(edges)
    ensures Distinct(ChildrenOf(edges, id))
  {
    if edges != [] {
      var init, e := edges[..|edges| - 1], edges[|edges| - 1];
      ChildrenAreDistinct(init, id);
      ChildrenAreTargets(init, id, e.target);
    }
  }

  lemma DistinctByItems<T>(s: seq<T>, r: seq<T>)
    requires Distinct(s) && multiset(s) == multiset(r)
    ensures Distinct(r)
  {
    forall i, j | 0 <= i < j < |r|
      ensures r[i] != r[j]
    {
      DistinctMeansOnce(s, r[i]);
      if r[i] == r[j] {
        TwiceCounted(r, i, j);
        assert false;
      }
    }
  }

  lemma TwiceCounted<T>(r: seq<T>, i: nat, j: nat)
    requires i < j < |r| && r[i] == r[j]
    ensures multiset(r)[r[i]] >= 2
  {
    assert r == r[..j] + [r[j]] + r[j + 1..];
    assert r[..j] == r[..i] + [r[i]] + r[i + 1..j];
  }

  lemma {:induction false} DistinctMeansOnce<T>(s: seq<T>, x: T)
    requires Distinct(s)
    ensures multiset(s)[x] <= 1
  {
    if s != [] {
      DistinctMeansOnce(s[1..], x);
      assert s == [s[0]] + s[1..];
      assert x == s[0] ==> x !in s[1..];
    }
  }

  lemma {:induction false} ListingFresh(elements: seq<ModelElement>, edges: seq<Edge>, ids: seq<Id>, parent: Option<Id>,
                                        seen: set<Id>, bound: nat, top: nat)
    requires Printable(elements, edges) && SingleParent(EdgeSet(edges)) && Distinct(edges)
    requires forall id :: id in ids ==> id in ById(elements) && RankOf(EdgeSet(edges))(id) < bound
    requires forall e :: e in EdgeSet(edges) ==> RankOf(EdgeSet(edges))(e.source) < top
    requires Distinct(ids) && AllApart(EdgeSet(edges), ids) && Clear(EdgeSet(edges), ids, seen)
    ensures FreshRefs(Listing(elements, edges, ids, parent), seen)
    decreases bound, |ids|
  {
    hide ById, SortedChildren, Closed, Acyclic, RankOf, Listing, EntryFor, Within, FreshRefs, RefSet, SingleParent,
         Clear, AllApart, Distinct;
    if ids == [] {
      NothingListed(elements, edges, parent);
      NoneRepeat(seen);
    } else {
      var all := EdgeSet(edges);
      var id, rest := ids[0], ids[1..];
      var kids := SortedChildren(edges, id);
      var first := EntryFor(elements, id, parent);
      KidsAreElements(elements, edges, id);
      ListingSplits(elements, edges, ids, parent);
      var inner := Listing(elements, edges, kids, Some(id));
      var outer := Listing(elements, edges, rest, parent);
      EntryForIs(elements, id, parent);
      FewerIds(all, ids, seen);
      KidsApart(elements, edges, id, top);
      KidsClear(elements, edges, id, seen);
      KidsDistinct(edges, id);
      ListingFresh(elements, edges, kids, Some(id), seen + {id}, RankOf(all)(id), top);
      ListingWithin(elements, edges, kids, Some(id), RankOf(all)(id));
      RestClear(elements, edges, ids, seen, inner);
      ListingFresh(elements, edges, rest, parent, seen + {id} + RefSet(inner), bound, top);
      OneIsFresh(first, seen);
      OneRef(first);
      FreshConcat([first], inner + outer, seen);
      FreshConcat(inner, outer, seen + {id});
    }
  }

  lemma NoneRepeat(seen: set<Id>)
    ensures FreshRefs([], seen)
  {
  }

  lemma KidsDistinct(edges: seq<Edge>, id: Id)
    requires Distinct(edges)
    ensures Distinct(SortedChildren(edges, id))
  {
    hide Distinct, ChildrenOf;
    ChildrenAreDistinct(edges, id);
    DistinctByItems(ChildrenOf(edges, id), SortedChildren(edges, id));
  }

  lemma FewerIds(edges: set<Edge>, ids: seq<Id>, seen: set<Id>)
    requires ids != [] && Distinct(ids) && AllApart(edges, ids) && Clear(edges, ids, seen)
    ensures Distinct(ids[1..]) && AllApart(edges, ids[1..]) && Clear(edges, [ids[0]], seen) && ids[0] !in seen
  {
    hide Descends;
    assert Within(edges, ids[0], ids[0]);
    forall i, j | 0 <= i < j < |ids[1..]|
      ensures ids[1..][i] != ids[1..][j]
    {
      assert ids[i + 1] != ids[j + 1];
    }
  }

  lemma RestClear(elements: seq<ModelElement>, edges: seq<Edge>, ids: seq<Id>, seen: set<Id>, inner: seq<Entry>)
    requires ids != [] && Distinct(ids) && AllApart(EdgeSet(edges), ids) && Clear(EdgeSet(edges), ids, seen)
    requires forall kid :: kid in SortedChildren(edges, ids[0]) ==> Edge(ids[0], kid, Contains) in edges
    requires forall e :: e in inner ==>
             exists a :: a in SortedChildren(edges, ids[0]) && Within(EdgeSet(edges), a, e.ref)
    ensures Clear(EdgeSet(edges), ids[1..], seen + {ids[0]} + RefSet(inner))
  {
    hide Descends, SortedChildren;
    var all, id := EdgeSet(edges), ids[0];
    assert Within(all, id, id);
    forall b, x | b in ids[1..] && x in seen + {id} + RefSet(inner)
      ensures !Within(all, b, x)
    {
      var i :| 0 <= i < |ids[1..]| && ids[1..][i] == b;
      assert ids[0] != ids[i + 1];
      if x in RefSet(inner) {
        var e :| e in inner && e.ref == x;
        var kid :| kid in SortedChildren(edges, id) && Within(all, kid, x);
        BelowKid(all, id, kid, x);
      }
    }
  }

  lemma {:induction false} RootsAreDistinct(elements: seq<ModelElement>, edges: seq<Edge>)
    requires Distinct(Ids(elements))
    ensures Distinct(RootIds(elements, edges))
    ensures forall id :: id in RootIds(elements, edges) ==> id in Ids(elements)
  {
    if elements != [] {
      var init := elements[..|elements| - 1];
      assert Ids(elements) == Ids(init) + [elements[|elements| - 1].id];
      forall i, j | 0 <= i < j < |init|
        ensures Ids(init)[i] != Ids(init)[j]
      {
        assert Ids(elements)[i] != Ids(elements)[j];
      }
      RootsAreDistinct(init, edges);
      var last := elements[|elements| - 1].id;
      assert last !in Ids(init) by {
        forall i | 0 <= i < |init|
          ensures Ids(init)[i] != last
        {
          assert Ids(elements)[i] != Ids(elements)[|elements| - 1];
        }
      }
    }
  }

  lemma SortedRootsAreDistinct(elements: seq<ModelElement>, edges: seq<Edge>)
    requires Distinct(Ids(elements))
    ensures Distinct(SortedRoots(elements, edges))
  {
    hide Distinct, Contained;
    RootsAreDistinct(elements, edges);
    DistinctByItems(RootIds(elements, edges), SortedRoots(elements, edges));
  }

  lemma RootsApart(elements: seq<ModelElement>, edges: seq<Edge>, top: nat)
    requires Printable(elements, edges) && SingleParent(EdgeSet(edges))
    requires forall e :: e in EdgeSet(edges) ==> RankOf(EdgeSet(edges))(e.source) < top
    ensures AllApart(EdgeSet(edges), SortedRoots(elements, edges))
  {
    hide ById, SortedRoots, Closed, Acyclic, RankOf, Within, SingleParent;
    var bound := RootsAreRanked(elements, edges);
    var roots := SortedRoots(elements, edges);
    forall a, b, x | a in roots && b in roots && a != b
      ensures !(Within(EdgeSet(edges), a, x) && Within(EdgeSet(edges), b, x))
    {
      NoParentOfRoot(edges, a);
      NoParentOfRoot(edges, b);
      SiblingsApart(EdgeSet(edges), a, b, x, top);
    }
  }

  lemma NoParentOfRoot(edges: seq<Edge>, id: Id)
    requires id !in Contained(edges)
    ensures forall p :: !Joined(EdgeSet(edges), p, id)
  {
  }

  /** In a forest without repeated rows, no element is printed twice. */
  lemma ForestPrintsOnce(elements: seq<ModelElement>, edges: seq<Edge>)
    requires Printable(elements, edges) && SingleParent(EdgeSet(edges)) && Distinct(edges) && Distinct(Ids(elements))
    ensures Distinct(Refs(Printed(elements, edges)))
  {
    hide ById, SortedRoots, Contained, Closed, Acyclic, RankOf, Listing, EntryFor, FreshRefs, Distinct, AllApart,
         SingleParent;
    var top := SourceBound(EdgeSet(edges), RankOf(EdgeSet(edges)));
    var bound := RootsAreRanked(elements, edges);
    SortedRootsAreDistinct(elements, edges);
    RootsApart(elements, edges, top);
    ListingFresh(elements, edges, SortedRoots(elements, edges), None, {}, bound, top);
    FreshAreDistinct(Printed(elements, edges), {});
  }

  // ----- Printing, parsing and diffing -----

  lemma {:induction false} OutlineIsLegal(elements: seq<ModelElement>, edges: seq<Edge>, id: Id)
    requires Printable(elements, edges) && id in ById(elements) && forall x :: x in ById(elements) ==> LegalId(x)
    ensures LegalIds(OutlineOf(elements, edges, id))
    decreases RankOf(EdgeSet(edges))(id)
  {
    hide ById, SortedChildren, Closed, Acyclic, RankOf, LegalId;
    var kids := SortedChildren(edges, id);
    KidsAreElements(elements, edges, id);
    var t := OutlineOf(elements, edges, id);
    forall c | c in t.children
      ensures LegalIds(c)
    {
      var i :| 0 <= i < |kids| && c == OutlineOf(elements, edges, kids[i]);
      OutlineIsLegal(elements, edges, kids[i]);
    }
  }

  lemma OutlinesAreLegal(elements: seq<ModelElement>, edges: seq<Edge>)
    requires Printable(elements, edges) && forall x :: x in ById(elements) ==> LegalId(x)
    ensures forall t :: t in Outlines(elements, edges) ==> LegalIds(t)
  {
    hide ById, SortedRoots, Closed, Acyclic, LegalId, LegalIds, OutlineOf;
    forall t | t in Outlines(elements, edges)
      ensures LegalIds(t)
    {
      var roots := SortedRoots(elements, edges);
      var i :| 0 <= i < |roots| && t == OutlineOf(elements, edges, roots[i]);
      OutlineIsLegal(elements, edges, roots[i]);
    }
  }

  ghost function TextOf(al: char -> bool, elements: seq<ModelElement>, edges: seq<Edge>): string
    requires Printable(elements, edges)
  {
    OutlinesText(al, Outlines(elements, edges), 0)
  }

  /** A printed graph parses, to exactly the outlines it was printed from. */
  lemma PrintedGraphParses(al: char -> bool, elements: seq<ModelElement>, edges: seq<Edge>)
    requires KeepsClear(al) && Printable(elements, edges) && forall id :: id in ById(elements) ==> LegalId(id)
    ensures var r := Document(al, TextOf(al, elements, edges));
            r.Ok? && MatchesAll(r.value, Outlines(elements, edges))
  {
    hide ById, Printable, LegalId, LegalIds, MatchesAll, OutlinesText, Document;
    OutlinesAreLegal(elements, edges);
    PrintThenParse(al, Outlines(elements, edges));
  }

  lemma PrintedIsUnchanged(elements: seq<ModelElement>, edges: seq<Edge>, e: Entry)
    requires Printable(elements, edges) && SingleParent(EdgeSet(edges)) && e in Printed(elements, edges)
    ensures Unchanged(e, ById(elements), ParentMap(edges))
  {
    hide ById, ParentMap, SingleParent, Closed, Acyclic, Listing, SortedRoots, Contained;
    var roots := SortedRoots(elements, edges);
    PrintedRepeats(elements, edges);
    EntryForIs(elements, e.ref, e.parent);
    if e.ref in roots && e.parent == None {
      RootsAreListed(elements, edges, e.ref);
      ParentMapIsTheHierarchy(edges, e.ref);
      if e.ref in ParentMap(edges) {
        assert Joined(EdgeSet(edges), ParentMap(edges)[e.ref], e.ref);
      }
      NoParentOfRoot(edges, e.ref);
    } else {
      var p :| e.parent == Some(p) && Edge(p, e.ref, Contains) in edges;
      LookupIsTheParent(edges, e.ref, p);
    }
  }

  lemma TwoParentsPrintTwice(elements: seq<ModelElement>, edges: seq<Edge>)
    requires Printable(elements, edges) && Distinct(Refs(Printed(elements, edges)))
    ensures SingleParent(EdgeSet(edges))
  {
    hide ById, Closed, Acyclic, Printed, EntryFor, Refs;
    EveryParentIsPrinted(elements, edges);
    var printed := Printed(elements, edges);
    forall e, f | e in EdgeSet(edges) && f in EdgeSet(edges) && e.kind == Contains && f.kind == Contains &&
      e.target == f.target
      ensures e.source == f.source
    {
      var id := e.target;
      assert e == Edge(e.source, id, Contains) && f == Edge(f.source, id, Contains);
      var i :| 0 <= i < |printed| && printed[i] == EntryFor(elements, id, Some(e.source));
      var j :| 0 <= j < |printed| && printed[j] == EntryFor(elements, id, Some(f.source));
      EntryForIs(elements, id, Some(e.source));
      EntryForIs(elements, id, Some(f.source));
      SameRefSameEntry(printed, i, j);
    }
  }

  /** Diffing the text of a graph against the graph it was printed from, when no row is repeated, is accepted
      exactly when no element has two parents, and then there is nothing to do. */
  lemma PrintedTextDiffsEmpty(al: char -> bool, elements: seq<ModelElement>, edges: seq<Edge>)
    requires KeepsClear(al) && Printable(elements, edges) && forall id :: id in ById(elements) ==> LegalId(id)
    requires Distinct(Ids(elements)) && Distinct(edges)
    ensures var r := Document(al, TextOf(al, elements, edges));
            && r.Ok?
            && (Diff(elements, edges, r.value).Accepted? <==> SingleParent(EdgeSet(edges)))
            && (Diff(elements, edges, r.value).Accepted? ==> Diff(elements, edges, r.value).ops == [])
  {
    hide ById, Printable, LegalId, MatchesAll, TextOf, Document, Diff, SingleParent, Distinct, Entries, Anchors,
         ParentMap, KeepsClear, Refs, RefSet, Unchanged, Faithful, OutlineEntries;
    PrintedGraphParses(al, elements, edges);
    var parsed := Document(al, TextOf(al, elements, edges)).value;
    var printed := Printed(elements, edges);
    ParsedOutlineEntries(parsed, Outlines(elements, edges), None, 0);
    EveryParentIsPrinted(elements, edges);
    if SingleParent(EdgeSet(edges)) {
      ForestPrintsOnce(elements, edges);
      forall e | e in printed
        ensures Unchanged(e, ById(elements), ParentMap(edges))
      {
        PrintedIsUnchanged(elements, edges, e);
      }
      UnchangedDiffIsEmpty(elements, edges, parsed, printed);
    }
    if Diff(elements, edges, parsed).Accepted? {
      DiffAcceptsFaithfulEdits(elements, edges, parsed);
      FaithfulAnchorsDiffer(elements, parsed, printed);
      TwoParentsPrintTwice(elements, edges);
    }
  }

  lemma FaithfulAnchorsDiffer(elements: seq<ModelElement>, parsed: seq<ParsedElement>, entries: seq<Entry>)
    requires Faithful(elements, parsed) && Anchors(parsed) == AsAnchors(entries)
    ensures Distinct(Refs(entries))
  {
    assert AnchorIds(Anchors(parsed)) == Refs(entries);
  }

  // ----- The order of rows does not show -----

  lemma {:induction false} ChildCount(edges: seq<Edge>, id: Id, child: Id)
    ensures multiset(ChildrenOf(edges, id))[child] == multiset(edges)[Edge(id, child, Contains)]
  {
    if edges != [] {
      var init, e := edges[..|edges| - 1], edges[|edges| - 1];
      ChildCount(init, id, child);
      assert edges == init + [e];
      CountSnoc(init, e, Edge(id, child, Contains));
      CountSnoc(ChildrenOf(init, id), e.target, child);
    }
  }

  lemma CountSnoc<T>(s: seq<T>, x: T, y: T)
    ensures multiset(s + [x])[y] == multiset(s)[y] + if x == y then 1 else 0
  {
  }

  lemma SameItemsSameChildren(edges: seq<Edge>, edges': seq<Edge>, id: Id)
    requires multiset(edges) == multiset(edges')
    ensures SortedChildren(edges, id) == SortedChildren(edges', id)
  {
    hide ChildrenOf;
    forall child
      ensures multiset(ChildrenOf(edges, id))[child] == multiset(ChildrenOf(edges', id))[child]
    {
      ChildCount(edges, id, child);
      ChildCount(edges', id, child);
    }
    SortIdsOrderFree(ChildrenOf(edges, id), ChildrenOf(edges', id));
  }

  lemma {:induction false} ByIdFinds(elements: seq<ModelElement>, i: nat)
    requires Distinct(Ids(elements)) && i < |elements|
    ensures elements[i].id in ById(elements) && ById(elements)[elements[i].id] == elements[i]
  {
    var n := |elements| - 1;
    if i < n {
      forall a, b | 0 <= a < b < n
        ensures Ids(elements[..n])[a] != Ids(elements[..n])[b]
      {
        assert Ids(elements)[a] != Ids(elements)[b];
      }
      ByIdFinds(elements[..n], i);
      assert Ids(elements)[i] != Ids(elements)[n];
    }
  }

  lemma {:induction false} ByIdHolds(elements: seq<ModelElement>, id: Id)
    ensures id in ById(elements) ==> ById(elements)[id] in elements && ById(elements)[id].id == id
  {
    if elements != [] {
      ByIdHolds(elements[..|elements| - 1], id);
    }
  }

  lemma SameItemsSameIndex(elements: seq<ModelElement>, elements': seq<ModelElement>)
    requires multiset(elements) == multiset(elements') && Distinct(Ids(elements)) && Distinct(Ids(elements'))
    ensures ById(elements) == ById(elements')
  {
    hide ById, Distinct;
    forall e
      ensures e in elements <==> e in elements'
    {
      assert e in elements <==> e in multiset(elements);
      assert e in elements' <==> e in multiset(elements');
    }
    SameIndexOneWay(elements, elements');
    SameIndexOneWay(elements', elements);
  }

  lemma SameIndexOneWay(a: seq<ModelElement>, b: seq<ModelElement>)
    requires Distinct(Ids(b)) && forall e :: e in a ==> e in b
    ensures forall id :: id in ById(a) ==> id in ById(b) && ById(b)[id] == ById(a)[id]
  {
    hide ById, Distinct;
    forall id | id in ById(a)
      ensures id in ById(b) && ById(b)[id] == ById(a)[id]
    {
      ByIdHolds(a, id);
      var i :| 0 <= i < |b| && b[i] == ById(a)[id];
      ByIdFinds(b, i);
    }
  }

  /** The same ids, kinds and names: all that is printed of an element. */
  ghost predicate LooksAlike(elements: seq<ModelElement>, elements': seq<ModelElement>) {
    && ById(elements).Keys == ById(elements').Keys
    && forall id :: id in ById(elements) ==>
         ById(elements)[id].kind == ById(elements')[id].kind && ById(elements)[id].name == ById(elements')[id].name
  }

  ghost predicate SameHierarchy(edges: seq<Edge>, edges': seq<Edge>) {
    forall id :: SortedChildren(edges, id) == SortedChildren(edges', id)
  }

  lemma {:induction false} SameOutline(elements: seq<ModelElement>, edges: seq<Edge>, elements': seq<ModelElement>,
                                       edges': seq<Edge>, id: Id)
    requires Printable(elements, edges) && Printable(elements', edges') && id in ById(elements)
    requires LooksAlike(elements, elements') && SameHierarchy(edges, edges')
    ensures OutlineOf(elements, edges, id) == OutlineOf(elements', edges', id)
    decreases RankOf(EdgeSet(edges))(id)
  {
    hide ById, SortedChildren, Closed, Acyclic, RankOf;
    KidsAreElements(elements, edges, id);
    KidsAreElements(elements', edges', id);
    var kids := SortedChildren(edges, id);
    assert kids == SortedChildren(edges', id);
    var a, b := OutlineOf(elements, edges, id).children, OutlineOf(elements', edges', id).children;
    assert |a| == |b| == |kids|;
    forall i | 0 <= i < |kids|
      ensures a[i] == b[i]
    {
      SameOutline(elements, edges, elements', edges', kids[i]);
      assert a[i] == OutlineOf(elements, edges, kids[i]);
      assert b[i] == OutlineOf(elements', edges', kids[i]);
    }
  }

  lemma SameText(al: char -> bool, elements: seq<ModelElement>, edges: seq<Edge>, elements': seq<ModelElement>,
                 edges': seq<Edge>)
    requires Printable(elements, edges) && Printable(elements', edges')
    requires LooksAlike(elements, elements') && SameHierarchy(edges, edges')
    requires SortedRoots(elements, edges) == SortedRoots(elements', edges')
    ensures TextOf(al, elements, edges) == TextOf(al, elements', edges')
  {
    hide ById, SortedRoots, Closed, Acyclic, OutlineOf, OutlinesText, Contained, LooksAlike, SameHierarchy;
    var roots := SortedRoots(elements, edges);
    forall i | 0 <= i < |roots|
      ensures OutlineOf(elements, edges, roots[i]) == OutlineOf(elements', edges', roots[i])
    {
      SameOutline(elements, edges, elements', edges', roots[i]);
    }
    assert Outlines(elements, edges) == Outlines(elements', edges');
  }

  lemma SameContained(edges: seq<Edge>, edges': seq<Edge>)
    requires multiset(edges) == multiset(edges')
    ensures Contained(edges) == Contained(edges')
  {
    assert forall e :: e in edges <==> e in multiset(edges);
    assert forall e :: e in edges' <==> e in multiset(edges');
  }

  lemma SameRoots(elements: seq<ModelElement>, edges: seq<Edge>, elements': seq<ModelElement>, edges': seq<Edge>)
    requires multiset(elements) == multiset(elements') && multiset(edges) == multiset(edges')
    requires Distinct(Ids(elements)) && Distinct(Ids(elements'))
    ensures SortedRoots(elements, edges) == SortedRoots(elements', edges')
  {
    hide Contained, ById, Distinct;
    SameContained(edges, edges');
    SameItemsSameIndex(elements, elements');
    RootsAreDistinct(elements, edges);
    RootsAreDistinct(elements', edges');
    forall id
      ensures id in RootIds(elements, edges) <==> id in RootIds(elements', edges')
    {
      RootsAreListed(elements, edges, id);
      RootsAreListed(elements', edges', id);
    }
    DistinctSameItems(RootIds(elements, edges), RootIds(elements', edges'));
    SortIdsOrderFree(RootIds(elements, edges), RootIds(elements', edges'));
  }

  lemma DistinctSameItems<T>(a: seq<T>, b: seq<T>)
    requires Distinct(a) && Distinct(b) && forall x :: x in a <==> x in b
    ensures multiset(a) == multiset(b)
  {
    hide Distinct;
    forall x
      ensures multiset(a)[x] == multiset(b)[x]
    {
      DistinctMeansOnce(a, x);
      DistinctMeansOnce(b, x);
      assert x in a <==> x in multiset(a);
      assert x in b <==> x in multiset(b);
    }
  }

  /** The text depends on the graph alone, not on the order in which its rows are listed. */
  lemma PrintingIgnoresRowOrder(al: char -> bool, elements: seq<ModelElement>, edges: seq<Edge>,
                                elements': seq<ModelElement>, edges': seq<Edge>)
    requires Printable(elements, edges) && Printable(elements', edges')
    requires multiset(elements) == multiset(elements') && multiset(edges) == multiset(edges')
    requires Distinct(Ids(elements)) && Distinct(Ids(elements'))
    ensures TextOf(al, elements, edges) == TextOf(al, elements', edges')
  {
    hide ById, SortedRoots, SortedChildren, Closed, Acyclic, OutlineOf, Distinct, OutlinesText, Contained;
    SameItemsSameIndex(elements, elements');
    SameRoots(elements, edges, elements', edges');
    forall id
      ensures SortedChildren(edges, id) == SortedChildren(edges', id)
    {
      SameItemsSameChildren(edges, edges', id);
    }
    SameText(al, elements, edges, elements', edges');
  }
}
