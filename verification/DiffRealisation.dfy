/** Applying an accepted edit's operations rebuilds exactly the edited document, never leaving the
    forest on the way. */
module DiffRealisation {
  import opened SysmlModel
  import opened TextSyntax
  import opened Containment
  import opened Decimals
  import opened GraphOps
  import opened TextDiff
  import opened DiffAcceptance

  /** An element takes its place: its name and its parent become the entry's. */
  function Place(s: Snapshot, e: Entry): Snapshot {
    s.(elements := s.elements[e.ref :=
         if e.ref in s.elements then s.elements[e.ref].(name := e.name)
           else ModelElement(e.ref, e.kind, e.name, true, Human)],
       edges := WithoutParents(s.edges, e.ref) + ParentEdge(e.parent, e.ref))
  }

  function PlaceAll(s: Snapshot, entries: seq<Entry>): Snapshot
    decreases |entries|
  {
    if entries == [] then s else PlaceAll(Place(s, entries[0]), entries[1..])
  }

  function Refs(entries: seq<Entry>): seq<Id> {
    seq(|entries|, i requires 0 <= i < |entries| => entries[i].ref)
  }

  /** What the diff was told about the elements still to be placed is true of `s`. */
  ghost predicate Accurate(s: Snapshot, entries: seq<Entry>, byId: map<Id, ModelElement>, parentOf: map<Id, Id>) {
    forall e :: e in entries ==>
      if e.known then
        && e.ref in byId && e.ref in s.elements && s.elements[e.ref] == byId[e.ref]
        && forall parent :: Edge(parent, e.ref, Contains) in s.edges <==> Lookup(parentOf, e.ref) == Some(parent)
      else
        e.ref !in s.elements && forall parent :: Edge(parent, e.ref, Contains) !in s.edges
  }

  lemma EntryOpsPlace(s: Snapshot, e: Entry, byId: map<Id, ModelElement>, parentOf: map<Id, Id>)
    requires Accurate(s, [e], byId, parentOf)
    ensures ApplyOps(s, EntryOps(e, byId, parentOf)) == Place(s, e)
  {
    assert e in [e];
    if !e.known {
      assert WithoutParents(s.edges, e.ref) == s.edges;
    } else {
      var was, wasParent := byId[e.ref], Lookup(parentOf, e.ref);
      var renames := if was.name != e.name then [Rename(e.ref, e.name)] else [];
      var moves := if wasParent != e.parent then [Reparent(e.ref, e.parent)] else [];
      ApplyConcat(s, renames, moves);
      var renamed := ApplyOps(s, renames);
      assert renamed == s.(elements := s.elements[e.ref := was.(name := e.name)]);
      if wasParent == e.parent {
        SameParent(s.edges, e.ref, e.parent);
      }
    }
  }

  lemma SameParent(edges: set<Edge>, id: Id, parent: Option<Id>)
    requires forall p :: Edge(p, id, Contains) in edges <==> parent == Some(p)
    ensures WithoutParents(edges, id) + ParentEdge(parent, id) == edges
  {
    forall e | e in edges
      ensures e in WithoutParents(edges, id) + ParentEdge(parent, id)
    {
      if e.target == id && e.kind == Contains {
        assert e == Edge(e.source, id, Contains);
      }
    }
  }

  lemma StillAccurate(s: Snapshot, entries: seq<Entry>, byId: map<Id, ModelElement>, parentOf: map<Id, Id>)
    requires entries != [] && Distinct(Refs(entries)) && Accurate(s, entries, byId, parentOf)
    ensures Distinct(Refs(entries[1..])) && Accurate(Place(s, entries[0]), entries[1..], byId, parentOf)
  {
    var first, rest := entries[0], entries[1..];
    DistinctRest(entries);
    forall e | e in rest
      ensures e in entries && e.ref != first.ref
    {
      var i :| 0 <= i < |rest| && rest[i] == e;
      assert Refs(entries)[0] != Refs(entries)[i + 1];
    }
  }

  /** The operations of a list of entries place them one after the other. */
  lemma {:induction false} OpsPlaceEntries(s: Snapshot, entries: seq<Entry>, byId: map<Id, ModelElement>,
                                           parentOf: map<Id, Id>)
    requires Distinct(Refs(entries)) && Accurate(s, entries, byId, parentOf)
    ensures ApplyOps(s, OpsFor(entries, byId, parentOf)) == PlaceAll(s, entries)
    decreases |entries|
  {
    if entries != [] {
      hide EntryOps, Place, ApplyOp, Refs;
      var first := EntryOps(entries[0], byId, parentOf);
      ApplyConcat(s, first, OpsFor(entries[1..], byId, parentOf));
      EntryOpsPlace(s, entries[0], byId, parentOf);
      StillAccurate(s, entries, byId, parentOf);
      OpsPlaceEntries(Place(s, entries[0]), entries[1..], byId, parentOf);
    }
  }

  // ----- What placing all the entries amounts to -----

  function RefSet(entries: seq<Entry>): set<Id> {
    set e | e in entries :: e.ref
  }

  /** The containment edges the document shows. */
  function Hierarchy(entries: seq<Entry>): set<Edge> {
    set e | e in entries && e.parent.Some? :: Edge(e.parent.value, e.ref, Contains)
  }

  function Unplaced(edges: set<Edge>, refs: set<Id>): set<Edge> {
    set e | e in edges && !(e.kind == Contains && e.target in refs)
  }

  /** The element an entry stands for: the one in the model under its new name, or a new one. */
  function ElementFor(was: Snapshot, e: Entry): ModelElement {
    if e.ref in was.elements then was.elements[e.ref].(name := e.name)
      else ModelElement(e.ref, e.kind, e.name, true, Human)
  }

  /** `s` is `was` with the entries' elements, and with their hierarchy instead of its own. */
  ghost predicate Shows(was: Snapshot, entries: seq<Entry>, s: Snapshot) {
    && s.elements.Keys == was.elements.Keys + RefSet(entries)
    && (forall e :: e in entries ==> s.elements[e.ref] == ElementFor(was, e))
    && (forall id :: id in was.elements && id !in RefSet(entries) ==> s.elements[id] == was.elements[id])
    && s.edges == Unplaced(was.edges, RefSet(entries)) + Hierarchy(entries)
    && s.bodies == was.bodies
  }

  lemma RefSetCons(entries: seq<Entry>)
    requires entries != [] && Distinct(Refs(entries))
    ensures RefSet(entries) == {entries[0].ref} + RefSet(entries[1..])
    ensures Hierarchy(entries) == ParentEdge(entries[0].parent, entries[0].ref) + Hierarchy(entries[1..])
    ensures entries[0].ref !in RefSet(entries[1..])
  {
    assert entries == [entries[0]] + entries[1..];
    forall e | e in entries[1..]
      ensures e.ref != entries[0].ref
    {
      var i :| 0 <= i < |entries[1..]| && entries[1..][i] == e;
      assert Refs(entries)[0] != Refs(entries)[i + 1];
    }
  }

  lemma UnplacedAfterPlace(edges: set<Edge>, parent: Option<Id>, id: Id, refs: set<Id>)
    requires id !in refs
    ensures Unplaced(WithoutParents(edges, id) + ParentEdge(parent, id), refs)
         == Unplaced(edges, {id} + refs) + ParentEdge(parent, id)
  {
  }

  lemma {:induction false} PlacedEntriesShow(s: Snapshot, entries: seq<Entry>)
    requires Distinct(Refs(entries))
    ensures Shows(s, entries, PlaceAll(s, entries))
    decreases |entries|
  {
    if entries == [] {
      assert s.edges == Unplaced(s.edges, RefSet(entries)) + Hierarchy(entries);
    } else {
      hide Unplaced, Hierarchy, RefSet, WithoutParents, ParentEdge, Refs, Place, Shows;
      DistinctRest(entries);
      PlacedEntriesShow(Place(s, entries[0]), entries[1..]);
      ShownOneMore(s, entries, PlaceAll(s, entries));
    }
  }

  lemma ShownOneMore(s: Snapshot, entries: seq<Entry>, end: Snapshot)
    requires entries != [] && Distinct(Refs(entries)) && Shows(Place(s, entries[0]), entries[1..], end)
    ensures Shows(s, entries, end)
  {
    hide Unplaced, Hierarchy, RefSet, WithoutParents, ParentEdge, Refs, Distinct;
    var first, rest := entries[0], entries[1..];
    RefSetCons(entries);
    UnplacedAfterPlace(s.edges, first.parent, first.ref, RefSet(rest));
    assert end.edges == (Unplaced(s.edges, RefSet(entries)) + ParentEdge(first.parent, first.ref)) + Hierarchy(rest);
    assert end.elements.Keys == (s.elements.Keys + {first.ref}) + RefSet(rest);
    forall e | e in entries
      ensures e.ref in end.elements && end.elements[e.ref] == ElementFor(s, e)
    {
      RefIn(rest, e);
      if e != first {
        assert e in rest;
      }
    }
  }

  lemma RefIn(entries: seq<Entry>, e: Entry)
    ensures e in entries ==> e.ref in RefSet(entries)
  {
  }

  lemma DistinctRest(entries: seq<Entry>)
    requires entries != [] && Distinct(Refs(entries))
    ensures Distinct(Refs(entries[1..]))
  {
    forall i, j | 0 <= i < j < |entries[1..]|
      ensures Refs(entries[1..])[i] != Refs(entries[1..])[j]
    {
      assert Refs(entries)[i + 1] != Refs(entries)[j + 1];
    }
  }

  // ----- The entries of a document -----

  lemma TempIdsDiffer(a: nat, b: nat)
    requires TempId(a) == TempId(b)
    ensures a == b
  {
    assert TempId(a)[|"__new_"|..] == Decimal(a) && TempId(b)[|"__new_"|..] == Decimal(b);
    DecimalReadsBack(a);
    DecimalReadsBack(b);
  }

  /** No id of the model has the form of a temporary id. */
  ghost predicate NoTemps(ids: set<Id>) {
    forall n :: TempId(n) !in ids
  }

  function TempRange(low: nat, high: nat): set<Id> {
    set n | low <= n < high :: TempId(n)
  }

  lemma TempRangeGrows(low: nat, mid: nat, high: nat)
    requires low <= mid <= high
    ensures TempRange(low, high) == TempRange(low, mid) + TempRange(mid, high)
    ensures TempRange(low, low + 1) == {TempId(low)} && TempRange(low, low) == {}
  {
    hide TempId;
  }

  lemma RefSetConcat(a: seq<Entry>, b: seq<Entry>)
    ensures RefSet(a + b) == RefSet(a) + RefSet(b)
  {
  }

  lemma FirstRef(ps: seq<ParsedElement>, parent: Option<Id>, k: nat)
    requires ps != []
    ensures var p := ps[0];
            var k' := if p.anchorId.Some? then k else k + 1;
            {RefOf(p, k)} == IdSet(Own(p)) + TempRange(k, k')
  {
    hide TempId;
    if ps[0].anchorId.Some? {
      assert IdSet(Own(ps[0])) == {ps[0].anchorId.value};
      TempRangeGrows(k, k, k);
    } else {
      assert IdSet(Own(ps[0])) == {};
      TempRangeGrows(k, k, k);
    }
  }

  /** A document's ids are its anchors and one temporary id for each new element. */
  lemma {:induction false} EntryRefs(ps: seq<ParsedElement>, parent: Option<Id>, k: nat)
    ensures RefSet(Entries(ps, parent, k)) == IdSet(Anchors(ps)) + TempRange(k, k + NewCount(ps))
    decreases ps
  {
    hide *;
    if ps == [] {
      NoEntries(ps, parent, k);
    } else {
      var p, rest, n := ps[0], ps[1..], NewCount(ps);
      var k' := if p.anchorId.Some? then k else k + 1;
      var k'' := k' + NewCount(p.children);
      var inner := Entries(p.children, Some(RefOf(p, k)), k');
      var outer := Entries(rest, parent, k'');
      var first := Entry(RefOf(p, k), p.anchorId.Some?, p.kind, p.name, parent);
      NewCountSplits(ps);
      EntriesSplit(ps, parent, k);
      AnchorsSplit(ps);
      CleanConcat(Own(p), Anchors(p.children) + Anchors(rest), {}, map[]);
      CleanConcat(Anchors(p.children), Anchors(rest), {}, map[]);
      RefSetConcat([first], inner + outer);
      RefSetConcat(inner, outer);
      OneRef(first);
      FirstRef(ps, parent, k);
      EntryRefs(p.children, Some(RefOf(p, k)), k');
      EntryRefs(rest, parent, k'');
      TempRangeGrows(k, k', k + n);
      TempRangeGrows(k', k'', k + n);
      UnionsRegroup(IdSet(Own(p)), TempRange(k, k'), IdSet(Anchors(p.children)), TempRange(k', k''),
                    IdSet(Anchors(rest)), TempRange(k'', k + n));
      assert Entries(ps, parent, k) == [first] + (inner + outer);
      assert RefSet([first] + (inner + outer)) == {first.ref} + (RefSet(inner) + RefSet(outer));
      assert TempRange(k, k + n) == TempRange(k, k') + (TempRange(k', k'') + TempRange(k'', k + n));
      assert IdSet(Anchors(ps)) == IdSet(Own(p)) + (IdSet(Anchors(p.children)) + IdSet(Anchors(rest)));
    }
  }

  lemma NoEntries(ps: seq<ParsedElement>, parent: Option<Id>, k: nat)
    requires ps == []
    ensures Entries(ps, parent, k) == [] && NewCount(ps) == 0
    ensures RefSet(Entries(ps, parent, k)) == IdSet(Anchors(ps)) + TempRange(k, k + NewCount(ps))
    ensures forall seen :: FreshRefs(Entries(ps, parent, k), seen)
    ensures ParentsFirst(Entries(ps, parent, k), parent)
  {
  }

  lemma NewCountSplits(ps: seq<ParsedElement>)
    requires ps != []
    ensures NewCount(ps) == (if ps[0].anchorId.Some? then 0 else 1) + NewCount(ps[0].children) + NewCount(ps[1..])
  {
  }

  lemma UnionsRegroup<T>(a: set<T>, x: set<T>, b: set<T>, y: set<T>, c: set<T>, z: set<T>)
    ensures (a + x) + ((b + y) + (c + z)) == (a + (b + c)) + (x + (y + z))
  {
  }

  lemma OneRef(e: Entry)
    ensures RefSet([e]) == {e.ref}
  {
  }

  /** Read one after another, no entry repeats an id. */
  predicate FreshRefs(entries: seq<Entry>, seen: set<Id>) {
    entries == [] || (entries[0].ref !in seen && FreshRefs(entries[1..], seen + {entries[0].ref}))
  }

  lemma {:induction false} FreshConcat(a: seq<Entry>, b: seq<Entry>, seen: set<Id>)
    ensures FreshRefs(a + b, seen) <==> FreshRefs(a, seen) && FreshRefs(b, seen + RefSet(a))
    decreases |a|
  {
    if a == [] {
      assert [] + b == b;
      assert seen + RefSet(a) == seen;
    } else {
      assert (a + b)[0] == a[0] && (a + b)[1..] == a[1..] + b;
      FreshConcat(a[1..], b, seen + {a[0].ref});
      assert a == [a[0]] + a[1..];
      assert seen + RefSet(a) == (seen + {a[0].ref}) + RefSet(a[1..]);
    }
  }

  lemma {:induction false} FreshAreDistinct(entries: seq<Entry>, seen: set<Id>)
    requires FreshRefs(entries, seen)
    ensures Distinct(Refs(entries)) && forall e :: e in entries ==> e.ref !in seen
    decreases |entries|
  {
    if entries != [] {
      FreshAreDistinct(entries[1..], seen + {entries[0].ref});
      assert entries == [entries[0]] + entries[1..];
      var refs := Refs(entries);
      forall i, j | 0 <= i < j < |refs|
        ensures refs[i] != refs[j]
      {
        assert refs[j] == Refs(entries[1..])[j - 1] && entries[j] in entries[1..];
        if i > 0 {
          assert refs[i] == Refs(entries[1..])[i - 1];
        }
      }
    }
  }

  lemma FirstIsFresh(p: ParsedElement, k: nat, seen: set<Id>, byId: map<Id, ModelElement>)
    requires NoTemps(byId.Keys) && seen <= byId.Keys && Clean(Own(p), seen, byId)
    ensures RefOf(p, k) !in seen + TempRange(0, k)
    ensures IdSet(Own(p)) <= byId.Keys
  {
    hide TempId;
    OwnIsClean(p, seen, byId);
    if p.anchorId.Some? {
    } else if RefOf(p, k) in TempRange(0, k) {
      var n :| 0 <= n < k && TempId(n) == TempId(k);
      TempIdsDiffer(n, k);
    }
  }

  lemma {:induction false} CleanAreKnown(anchors: seq<Anchored>, seen: set<Id>, byId: map<Id, ModelElement>)
    requires Clean(anchors, seen, byId)
    ensures IdSet(anchors) <= byId.Keys
    decreases |anchors|
  {
    if anchors != [] {
      CleanAreKnown(anchors[1..], seen + {anchors[0].id}, byId);
      assert anchors == [anchors[0]] + anchors[1..];
    }
  }

  /** With clean anchors, and no temporary id in the model, no two entries share an id. */
  lemma {:induction false} EntriesAreFresh(ps: seq<ParsedElement>, parent: Option<Id>, k: nat, seen: set<Id>,
                                           byId: map<Id, ModelElement>)
    requires NoTemps(byId.Keys) && seen <= byId.Keys && Clean(Anchors(ps), seen, byId)
    ensures FreshRefs(Entries(ps, parent, k), seen + TempRange(0, k))
    decreases ps
  {
    hide *;
    if ps == [] {
      NoEntries(ps, parent, k);
    } else {
      var p, rest := ps[0], ps[1..];
      var k' := if p.anchorId.Some? then k else k + 1;
      var k'' := k' + NewCount(p.children);
      var inner := Entries(p.children, Some(RefOf(p, k)), k');
      var outer := Entries(rest, parent, k'');
      var first := Entry(RefOf(p, k), p.anchorId.Some?, p.kind, p.name, parent);
      EntriesSplit(ps, parent, k);
      AnchorsSplit(ps);
      CleanConcat(Own(p), Anchors(p.children) + Anchors(rest), seen, byId);
      CleanConcat(Anchors(p.children), Anchors(rest), seen + IdSet(Own(p)), byId);
      FirstIsFresh(p, k, seen, byId);
      var seen1 := seen + IdSet(Own(p));
      CleanAreKnown(Anchors(p.children), seen1, byId);
      var seen2 := seen1 + IdSet(Anchors(p.children));
      EntriesAreFresh(p.children, Some(RefOf(p, k)), k', seen1, byId);
      EntriesAreFresh(rest, parent, k'', seen2, byId);
      FirstRef(ps, parent, k);
      OneRef(first);
      EntryRefs(p.children, Some(RefOf(p, k)), k');
      TempRangeGrows(0, k, k');
      TempRangeGrows(0, k', k'');
      var start := seen + TempRange(0, k);
      UnionsPair(seen, TempRange(0, k), IdSet(Own(p)), TempRange(k, k'));
      UnionsPair(seen1, TempRange(0, k'), IdSet(Anchors(p.children)), TempRange(k', k''));
      OneIsFresh(first, start);
      FreshConcat([first], inner + outer, start);
      FreshConcat(inner, outer, start + {first.ref});
      assert start + {first.ref} == seen1 + TempRange(0, k');
      assert (start + {first.ref}) + RefSet(inner) == seen2 + TempRange(0, k'');
      assert FreshRefs(inner, start + {first.ref});
      assert FreshRefs(outer, (start + {first.ref}) + RefSet(inner));
      assert FreshRefs([first] + (inner + outer), start);
      assert Entries(ps, parent, k) == [first] + (inner + outer);
    }
  }

  lemma UnionsPair<T>(a: set<T>, x: set<T>, b: set<T>, y: set<T>)
    ensures (a + x) + (b + y) == (a + b) + (x + y)
  {
  }

  lemma OneIsFresh(e: Entry, seen: set<Id>)
    requires e.ref !in seen
    ensures FreshRefs([e], seen)
  {
    assert [e][1..] == [];
  }

  /** Each parent an entry names is that of the whole list, or an entry before it. */
  ghost predicate ParentsFirst(entries: seq<Entry>, parent: Option<Id>) {
    forall i :: 0 <= i < |entries| ==>
      entries[i].parent == parent || exists j :: 0 <= j < i && entries[i].parent == Some(entries[j].ref)
  }

  lemma ParentsFirstTogether(first: Entry, inner: seq<Entry>, outer: seq<Entry>, parent: Option<Id>)
    requires first.parent == parent && ParentsFirst(inner, Some(first.ref)) && ParentsFirst(outer, parent)
    ensures ParentsFirst([first] + (inner + outer), parent)
  {
    var all := [first] + (inner + outer);
    forall i | 0 <= i < |all|
      ensures all[i].parent == parent || exists j :: 0 <= j < i && all[i].parent == Some(all[j].ref)
    {
      if 1 <= i <= |inner| {
        var n := i - 1;
        assert all[i] == inner[n];
        if inner[n].parent == Some(first.ref) {
          assert all[i].parent == Some(all[0].ref);
        } else {
          var j :| 0 <= j < n && inner[n].parent == Some(inner[j].ref);
          assert all[i].parent == Some(all[j + 1].ref);
        }
      } else if i > |inner| {
        var n := i - 1 - |inner|;
        assert all[i] == outer[n];
        if outer[n].parent != parent {
          var j :| 0 <= j < n && outer[n].parent == Some(outer[j].ref);
          assert all[i].parent == Some(all[j + 1 + |inner|].ref);
        }
      }
    }
  }

  /** A document lists parents before children. */
  lemma {:induction false} EntriesParentsFirst(ps: seq<ParsedElement>, parent: Option<Id>, k: nat)
    ensures ParentsFirst(Entries(ps, parent, k), parent)
    decreases ps
  {
    hide *;
    if ps == [] {
      NoEntries(ps, parent, k);
    } else {
      var p := ps[0];
      var k' := if p.anchorId.Some? then k else k + 1;
      EntriesSplit(ps, parent, k);
      EntriesParentsFirst(p.children, Some(RefOf(p, k)), k');
      EntriesParentsFirst(ps[1..], parent, k' + NewCount(p.children));
      ParentsFirstTogether(Entry(RefOf(p, k), p.anchorId.Some?, p.kind, p.name, parent),
                           Entries(p.children, Some(RefOf(p, k)), k'),
                           Entries(ps[1..], parent, k' + NewCount(p.children)), parent);
    }
  }
}
