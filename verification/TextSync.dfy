/** Text and graph in step: when nothing has changed, a diff finds nothing to do. */
module TextSync {
  import opened SysmlModel
  import opened Scanning
  import opened Ordering
  import opened TextSyntax
  import opened Containment
  import opened TextPrinter
  import opened TextRoundTrip
  import opened GraphOps
  import opened TextDiff
  import opened DiffAcceptance
  import opened DiffRealisation
  import opened DiffTheorems

  /** The entry only repeats what the model holds. */
  ghost predicate Unchanged(e: Entry, byId: map<Id, ModelElement>, parentOf: map<Id, Id>) {
    e.known && e.ref in byId && byId[e.ref].name == e.name && byId[e.ref].kind == e.kind &&
      Lookup(parentOf, e.ref) == e.parent
  }

  lemma {:induction false} UnchangedNeedsNoOps(entries: seq<Entry>, byId: map<Id, ModelElement>, parentOf: map<Id, Id>)
    requires forall e :: e in entries ==> Unchanged(e, byId, parentOf)
    ensures OpsFor(entries, byId, parentOf) == []
    decreases |entries|
  {
    if entries != [] {
      assert entries[0] in entries;
      UnchangedNeedsNoOps(entries[1..], byId, parentOf);
    }
  }

  function AsAnchors(entries: seq<Entry>): seq<Anchored> {
    seq(|entries|, i requires 0 <= i < |entries| => Anchored(entries[i].ref, entries[i].kind))
  }

  lemma AsAnchorsConcat(a: seq<Entry>, b: seq<Entry>)
    ensures AsAnchors(a + b) == AsAnchors(a) + AsAnchors(b)
  {
  }

  /** A document that lists exactly the model's elements, unchanged, is accepted with nothing to do. */
  lemma UnchangedDiffIsEmpty(elements: seq<ModelElement>, edges: seq<Edge>, parsed: seq<ParsedElement>,
                             entries: seq<Entry>)
    requires Entries(parsed, None, 0) == entries && Anchors(parsed) == AsAnchors(entries)
    requires Distinct(Refs(entries)) && RefSet(entries) == ById(elements).Keys
    requires forall e :: e in entries ==> Unchanged(e, ById(elements), ParentMap(edges))
    ensures Diff(elements, edges, parsed) == Accepted([])
  {
    hide ById, ParentMap, Diff, Entries, Anchors, Distinct;
    var ids := AnchorIds(Anchors(parsed));
    assert ids == Refs(entries);
    forall id
      ensures id in ids <==> id in ById(elements)
    {
      if id in ids {
        var i :| 0 <= i < |entries| && entries[i].ref == id;
        RefIn(entries, entries[i]);
      }
      if id in RefSet(entries) {
        var e :| e in entries && e.ref == id;
        var i :| 0 <= i < |entries| && entries[i] == e;
        assert ids[i] == id;
      }
    }
    forall a | a in Anchors(parsed)
      ensures a.id in ById(elements) && ById(elements)[a.id].kind == a.kind
    {
      var i :| 0 <= i < |entries| && a == Anchored(entries[i].ref, entries[i].kind);
      assert Unchanged(entries[i], ById(elements), ParentMap(edges));
    }
    DiffAcceptsFaithfulEdits(elements, edges, parsed);
    UnchangedNeedsNoOps(entries, ById(elements), ParentMap(edges));
  }

  // ----- After an edit has been applied -----

  /** The document with each new element anchored by its id. */
  function Reanchor(ps: seq<ParsedElement>, k: nat): seq<ParsedElement>
    decreases ps
  {
    if ps == [] then []
    else
      var p := ps[0];
      var k' := if p.anchorId.Some? then k else k + 1;
      [p.(anchorId := Some(RefOf(p, k)), children := Reanchor(p.children, k'))] +
      Reanchor(ps[1..], k' + NewCount(p.children))
  }

  function AllKnown(entries: seq<Entry>): seq<Entry> {
    seq(|entries|, i requires 0 <= i < |entries| => entries[i].(known := true))
  }

  lemma AllKnownConcat(a: seq<Entry>, b: seq<Entry>)
    ensures AllKnown(a + b) == AllKnown(a) + AllKnown(b)
  {
  }

  lemma {:induction false} ReanchoredEntries(ps: seq<ParsedElement>, parent: Option<Id>, k: nat, j: nat)
    ensures Entries(Reanchor(ps, k), parent, j) == AllKnown(Entries(ps, parent, k))
    ensures Anchors(Reanchor(ps, k)) == AsAnchors(Entries(ps, parent, k))
    decreases ps
  {
    hide *;
    if ps == [] {
      NothingToReanchor(ps, parent, k, j);
    } else {
      var p, rest := ps[0], ps[1..];
      var k' := if p.anchorId.Some? then k else k + 1;
      var k'' := k' + NewCount(p.children);
      var first := Entry(RefOf(p, k), p.anchorId.Some?, p.kind, p.name, parent);
      var inner := Entries(p.children, Some(first.ref), k');
      var outer := Entries(rest, parent, k'');
      EntriesSplit(ps, parent, k);
      ReanchorSplits(ps, parent, k, j);
      ReanchoredEntries(p.children, Some(first.ref), k', j);
      ReanchoredEntries(rest, parent, k'', j + NewCount(Reanchor(p.children, k')));
      AllKnownConcat([first], inner + outer);
      AllKnownConcat(inner, outer);
      AsAnchorsConcat([first], inner + outer);
      AsAnchorsConcat(inner, outer);
      OneEntry(first);
    }
  }

  lemma NothingToReanchor(ps: seq<ParsedElement>, parent: Option<Id>, k: nat, j: nat)
    requires ps == []
    ensures Entries(Reanchor(ps, k), parent, j) == AllKnown(Entries(ps, parent, k))
    ensures Anchors(Reanchor(ps, k)) == AsAnchors(Entries(ps, parent, k))
  {
  }

  lemma OneEntry(e: Entry)
    ensures AllKnown([e]) == [e.(known := true)] && AsAnchors([e]) == [Anchored(e.ref, e.kind)]
  {
  }

  lemma ReanchorSplits(ps: seq<ParsedElement>, parent: Option<Id>, k: nat, j: nat)
    requires ps != []
    ensures var p := ps[0];
            var k' := if p.anchorId.Some? then k else k + 1;
            var kids, rest := Reanchor(p.children, k'), Reanchor(ps[1..], k' + NewCount(p.children));
            && Entries(Reanchor(ps, k), parent, j)
               == [Entry(RefOf(p, k), true, p.kind, p.name, parent)] +
                  (Entries(kids, Some(RefOf(p, k)), j) + Entries(rest, parent, j + NewCount(kids)))
            && Anchors(Reanchor(ps, k)) == [Anchored(RefOf(p, k), p.kind)] + (Anchors(kids) + Anchors(rest))
  {
    hide TempId, Entries, Anchors;
    var p := ps[0];
    var k' := if p.anchorId.Some? then k else k + 1;
    var kids, rest := Reanchor(p.children, k'), Reanchor(ps[1..], k' + NewCount(p.children));
    var first := p.(anchorId := Some(RefOf(p, k)), children := kids);
    var all := Reanchor(ps, k);
    assert all == [first] + rest;
    assert all[0] == first && all[1..] == rest;
    EntriesSplit(all, parent, j);
    AnchorsSplit(all);
  }

  /** Once an accepted edit has been applied, diffing the document with its new elements anchored against
      any listing of the resulting graph finds nothing to do. */
  lemma DiffAfterApplyIsEmpty(elements: seq<ModelElement>, edges: seq<Edge>, parsed: seq<ParsedElement>,
                              bodies: map<Id, Body>, elements': seq<ModelElement>, edges': seq<Edge>)
    requires Diffable(elements, edges) && Acyclic(EdgeSet(edges)) && Diff(elements, edges, parsed).Accepted?
    requires var end := ApplyOps(Current(elements, edges, bodies), Diff(elements, edges, parsed).ops);
             ById(elements') == end.elements && EdgeSet(edges') == end.edges
    ensures Diff(elements', edges', Reanchor(parsed, 0)) == Accepted([])
  {
    hide ById, ParentMap, Diff, Entries, Anchors, Distinct, EdgeSet, RefSet, Refs, ApplyOps, Hierarchy, SingleParent,
         Acyclic, Faithful, Reanchor, Closed;
    var ops := Diff(elements, edges, parsed).ops;
    var entries := Entries(parsed, None, 0);
    var was := Current(elements, edges, bodies);
    DiffRealisesTheEdit(elements, edges, parsed, bodies);
    EveryStepKeepsTheForest(elements, edges, parsed, bodies, |ops|);
    assert ops[..|ops|] == ops;
    ReanchoredEntries(parsed, None, 0, 0);
    AllKnownRefs(entries);
    forall e | e in AllKnown(entries)
      ensures Unchanged(e, ById(elements'), ParentMap(edges'))
    {
      var i :| 0 <= i < |entries| && e == entries[i].(known := true);
      AcceptedKind(elements, edges, parsed, entries[i]);
      RefIn(entries, entries[i]);
      EntryParent(edges', entries, i);
    }
    UnchangedDiffIsEmpty(elements', edges', Reanchor(parsed, 0), AllKnown(entries));
  }

  lemma AllKnownRefs(entries: seq<Entry>)
    ensures Refs(AllKnown(entries)) == Refs(entries) && RefSet(AllKnown(entries)) == RefSet(entries)
    ensures AsAnchors(AllKnown(entries)) == AsAnchors(entries)
  {
    forall id | id in RefSet(entries)
      ensures id in RefSet(AllKnown(entries))
    {
      var i :| 0 <= i < |entries| && entries[i].ref == id;
      assert AllKnown(entries)[i] in AllKnown(entries);
    }
  }

  lemma AcceptedKind(elements: seq<ModelElement>, edges: seq<Edge>, parsed: seq<ParsedElement>, e: Entry)
    requires Diff(elements, edges, parsed).Accepted? && e in Entries(parsed, None, 0)
    ensures e.known ==> e.ref in ById(elements) && ById(elements)[e.ref].kind == e.kind
    ensures !e.known ==> exists n :: e.ref == TempId(n)
  {
    hide ById, Entries, Anchors, Diff, TempId;
    DiffAcceptsFaithfulEdits(elements, edges, parsed);
    EntriesAreSound(parsed, None, 0);
    assert SoundEntry(e, Anchors(parsed));
  }

  lemma InHierarchy(entries: seq<Entry>, i: nat)
    requires i < |entries|
    ensures entries[i].parent.Some? ==> Edge(entries[i].parent.value, entries[i].ref, Contains) in Hierarchy(entries)
  {
    assert entries[i] in entries;
  }

  /** In the edited hierarchy, an entry's parent is the one looked up. */
  lemma EntryParent(edges: seq<Edge>, entries: seq<Entry>, i: nat)
    requires i < |entries| && Distinct(Refs(entries)) && SingleParent(EdgeSet(edges))
    requires (set x | x in EdgeSet(edges) && x.kind == Contains) == Hierarchy(entries)
    ensures Lookup(ParentMap(edges), entries[i].ref) == entries[i].parent
  {
    hide ParentMap, SingleParent, Distinct, Refs;
    var id := entries[i].ref;
    InHierarchy(entries, i);
    forall parent
      ensures Lookup(ParentMap(edges), id) == Some(parent) <==> entries[i].parent == Some(parent)
    {
      LookupIsTheParent(edges, id, parent);
      var x := Edge(parent, id, Contains);
      assert x in EdgeSet(edges) <==> x in Hierarchy(entries);
      if x in Hierarchy(entries) {
        var j :| 0 <= j < |entries| && entries[j].parent.Some? &&
          x == Edge(entries[j].parent.value, entries[j].ref, Contains);
        SameRefSameEntry(entries, i, j);
      }
    }
    if entries[i].parent.Some? {
      assert Lookup(ParentMap(edges), id) == Some(entries[i].parent.value);
    }
  }
}
