/** What an accepted edit's operations do to the model, as a whole and step by step. */
module DiffTheorems {
  import opened SysmlModel
  import opened TextSyntax
  import opened Containment
  import opened GraphOps
  import opened TextDiff
  import opened DiffAcceptance
  import opened DiffRealisation

  /** The model a diff is taken against: a containment hierarchy over listed elements, none of which
      goes by a temporary id. */
  ghost predicate Diffable(elements: seq<ModelElement>, edges: seq<Edge>) {
    Closed(elements, edges) && SingleParent(EdgeSet(edges)) && NoTemps(ById(elements).Keys)
  }

  function Current(elements: seq<ModelElement>, edges: seq<Edge>, bodies: map<Id, Body>): Snapshot {
    Snapshot(ById(elements), EdgeSet(edges), bodies)
  }

  lemma {:induction false} ParentMapIsTheHierarchy(edges: seq<Edge>, id: Id)
    ensures id in ParentMap(edges) ==> Edge(ParentMap(edges)[id], id, Contains) in edges
    ensures id !in ParentMap(edges) ==> forall e :: e in edges && e.target == id ==> e.kind != Contains
  {
    if edges != [] {
      var init, e := edges[..|edges| - 1], edges[|edges| - 1];
      ParentMapIsTheHierarchy(init, id);
      assert edges == init + [e];
    }
  }

  lemma LookupIsTheParent(edges: seq<Edge>, id: Id, parent: Id)
    requires SingleParent(EdgeSet(edges))
    ensures Lookup(ParentMap(edges), id) == Some(parent) <==> Edge(parent, id, Contains) in edges
  {
    hide ParentMap;
    ParentMapIsTheHierarchy(edges, id);
    if Edge(parent, id, Contains) in edges {
      assert Edge(parent, id, Contains) in EdgeSet(edges);
      assert Edge(ParentMap(edges)[id], id, Contains) in EdgeSet(edges);
    }
  }

  ghost predicate SoundEntry(e: Entry, anchors: seq<Anchored>) {
    if e.known then Anchored(e.ref, e.kind) in anchors else exists n :: e.ref == TempId(n)
  }

  ghost predicate SoundEntries(entries: seq<Entry>, anchors: seq<Anchored>) {
    forall e :: e in entries ==> SoundEntry(e, anchors)
  }

  lemma SoundTogether(first: Entry, own: seq<Anchored>, inner: seq<Entry>, kids: seq<Anchored>, outer: seq<Entry>,
                      rest: seq<Anchored>)
    requires SoundEntry(first, own) && SoundEntries(inner, kids) && SoundEntries(outer, rest)
    ensures SoundEntries([first] + (inner + outer), own + (kids + rest))
  {
    hide TempId;
  }

  lemma FirstIsSound(p: ParsedElement, parent: Option<Id>, k: nat)
    ensures SoundEntry(Entry(RefOf(p, k), p.anchorId.Some?, p.kind, p.name, parent), Own(p))
  {
    hide TempId;
    if p.anchorId.Some? {
      assert Own(p)[0] == Anchored(p.anchorId.value, p.kind);
    }
  }

  lemma {:induction false} EntriesAreSound(ps: seq<ParsedElement>, parent: Option<Id>, k: nat)
    ensures SoundEntries(Entries(ps, parent, k), Anchors(ps))
    decreases ps
  {
    hide *;
    if ps == [] {
      NoSoundEntries(ps, parent, k);
    } else {
      var p := ps[0];
      var k' := if p.anchorId.Some? then k else k + 1;
      EntriesSplit(ps, parent, k);
      AnchorsSplit(ps);
      FirstIsSound(p, parent, k);
      EntriesAreSound(p.children, Some(RefOf(p, k)), k');
      EntriesAreSound(ps[1..], parent, k' + NewCount(p.children));
      SoundTogether(Entry(RefOf(p, k), p.anchorId.Some?, p.kind, p.name, parent), Own(p),
                    Entries(p.children, Some(RefOf(p, k)), k'), Anchors(p.children),
                    Entries(ps[1..], parent, k' + NewCount(p.children)), Anchors(ps[1..]));
    }
  }

  lemma NoSoundEntries(ps: seq<ParsedElement>, parent: Option<Id>, k: nat)
    requires ps == []
    ensures SoundEntries(Entries(ps, parent, k), Anchors(ps))
  {
  }

  lemma FaithfulIsClean(elements: seq<ModelElement>, parsed: seq<ParsedElement>)
    requires Faithful(elements, parsed)
    ensures Clean(Anchors(parsed), {}, ById(elements))
    ensures IdSet(Anchors(parsed)) == ById(elements).Keys
  {
    hide Clean, ById, Anchors;
    var anchors := Anchors(parsed);
    CleanInClosedForm(anchors, {}, ById(elements));
    forall id | id in ById(elements)
      ensures id in IdSet(anchors)
    {
      var i :| 0 <= i < |anchors| && AnchorIds(anchors)[i] == id;
      assert anchors[i] in anchors;
    }
    forall id | id in IdSet(anchors)
      ensures id in ById(elements)
    {
      var i :| 0 <= i < |anchors| && anchors[i].id == id;
      assert AnchorIds(anchors)[i] == id;
    }
  }

  /** An accepted edit's entries have distinct ids, list parents first, cover the model, and what the
      diff looked up about them is so. */
  lemma AcceptedEntriesAreAccurate(elements: seq<ModelElement>, edges: seq<Edge>, parsed: seq<ParsedElement>,
                                   bodies: map<Id, Body>)
    requires Diffable(elements, edges) && Faithful(elements, parsed)
    ensures var entries := Entries(parsed, None, 0);
            && Distinct(Refs(entries)) && ParentsFirst(entries, None)
            && Accurate(Current(elements, edges, bodies), entries, ById(elements), ParentMap(edges))
            && ById(elements).Keys <= RefSet(entries)
  {
    hide Clean, ById, Anchors, Entries, FreshRefs, ParentsFirst, TempRange, IdSet, RefSet, Distinct, Refs, Accurate,
         Faithful;
    var entries := Entries(parsed, None, 0);
    FaithfulIsClean(elements, parsed);
    EntriesAreFresh(parsed, None, 0, {}, ById(elements));
    FreshAreDistinct(entries, {} + TempRange(0, 0));
    EntriesParentsFirst(parsed, None, 0);
    EntryRefs(parsed, None, 0);
    EntriesAreSound(parsed, None, 0);
    SoundAreAccurate(elements, edges, bodies, entries, Anchors(parsed));
  }

  lemma AnchoredIn(anchors: seq<Anchored>, a: Anchored)
    requires a in anchors
    ensures a.id in IdSet(anchors)
  {
  }

  lemma SoundAreAccurate(elements: seq<ModelElement>, edges: seq<Edge>, bodies: map<Id, Body>, entries: seq<Entry>,
                         anchors: seq<Anchored>)
    requires Diffable(elements, edges) && SoundEntries(entries, anchors) && IdSet(anchors) == ById(elements).Keys
    ensures Accurate(Current(elements, edges, bodies), entries, ById(elements), ParentMap(edges))
  {
    hide ById, TempId, IdSet, ParentMap, SingleParent;
    var was := Current(elements, edges, bodies);
    forall e | e in entries
      ensures if e.known then e.ref in ById(elements) else e.ref !in ById(elements)
    {
      assert SoundEntry(e, anchors);
      if e.known {
        AnchoredIn(anchors, Anchored(e.ref, e.kind));
      }
    }
    forall e, parent | e in entries
      ensures e.known ==> (Edge(parent, e.ref, Contains) in was.edges <==>
                           Lookup(ParentMap(edges), e.ref) == Some(parent))
      ensures !e.known ==> Edge(parent, e.ref, Contains) !in was.edges
    {
      LookupIsTheParent(edges, e.ref, parent);
    }
  }

  /** An accepted edit keeps the kind of every element it names, and gives a new element the kind it writes. */
  lemma KindsAreAsWritten(elements: seq<ModelElement>, edges: seq<Edge>, parsed: seq<ParsedElement>,
                          bodies: map<Id, Body>, e: Entry)
    requires Diffable(elements, edges) && Diff(elements, edges, parsed).Accepted? && e in Entries(parsed, None, 0)
    ensures ElementFor(Current(elements, edges, bodies), e).kind == e.kind
    ensures ElementFor(Current(elements, edges, bodies), e).name == e.name
  {
    hide Diff, Entries, Distinct, ById, AnchorIds, SingleParent, ParentMap;
    DiffAcceptsFaithfulEdits(elements, edges, parsed);
    EntriesAreSound(parsed, None, 0);
    AcceptedEntriesAreAccurate(elements, edges, parsed, bodies);
    assert SoundEntry(e, Anchors(parsed));
  }

  // ----- The whole batch -----

  /** Applying an accepted edit's operations gives exactly the edited document: its elements and no
      others, under their names and kinds, each below its parent; all else in the model is as it was. */
  lemma DiffRealisesTheEdit(elements: seq<ModelElement>, edges: seq<Edge>, parsed: seq<ParsedElement>,
                            bodies: map<Id, Body>)
    requires Diffable(elements, edges) && Diff(elements, edges, parsed).Accepted?
    ensures var entries := Entries(parsed, None, 0);
            var was := Current(elements, edges, bodies);
            var end := ApplyOps(was, Diff(elements, edges, parsed).ops);
            && Distinct(Refs(entries))
            && end.elements.Keys == RefSet(entries)
            && (forall e :: e in entries ==> end.elements[e.ref] == ElementFor(was, e))
            && (forall e :: e in entries ==> end.elements[e.ref].kind == e.kind && end.elements[e.ref].name == e.name)
            && (set x | x in end.edges && x.kind == Contains) == Hierarchy(entries)
            && (set x | x in end.edges && x.kind != Contains) == (set x | x in was.edges && x.kind != Contains)
            && end.bodies == bodies
  {
    hide ById, Diff, Entries, Distinct, Refs, RefSet, Accurate, Faithful, ParentMap, ApplyOps, PlaceAll, OpsFor,
         ParentsFirst;
    var entries := Entries(parsed, None, 0);
    var was := Current(elements, edges, bodies);
    DiffAcceptsFaithfulEdits(elements, edges, parsed);
    AcceptedEntriesAreAccurate(elements, edges, parsed, bodies);
    OpsPlaceEntries(was, entries, ById(elements), ParentMap(edges));
    PlacedEntriesShow(was, entries);
    var end := PlaceAll(was, entries);
    assert end.elements.Keys == RefSet(entries);
    forall e | e in entries
      ensures e.ref in end.elements
      ensures ElementFor(was, e).kind == e.kind && ElementFor(was, e).name == e.name
    {
      RefIn(entries, e);
      KindsAreAsWritten(elements, edges, parsed, bodies, e);
    }
    forall x | x in Unplaced(was.edges, RefSet(entries))
      ensures x.kind != Contains
    {
      assert x in edges;
    }
    assert forall x :: x in Hierarchy(entries) ==> x.kind == Contains;
  }

  // ----- Each step of the batch -----

  /** Placed elements rank above all others, and each above those placed after it. */
  ghost function PlacedRank(entries: seq<Entry>, i: nat, rank: Id -> nat, bound: nat): Id -> nat
    requires i <= |entries|
  {
    (id: Id) => if exists j :: 0 <= j < i && entries[j].ref == id
                then bound + |entries| - FirstAt(entries, i, id)
                else rank(id)
  }

  ghost function FirstAt(entries: seq<Entry>, i: nat, id: Id): (j: nat)
    requires i <= |entries| && exists j :: 0 <= j < i && entries[j].ref == id
    ensures j < i && entries[j].ref == id
  {
    var j :| 0 <= j < i && entries[j].ref == id;
    j
  }

  lemma {:induction false} SomeBound(edges: set<Edge>, rank: Id -> nat) returns (bound: nat)
    ensures forall e :: e in edges ==> rank(e.target) < bound
  {
    if edges == {} {
      bound := 0;
    } else {
      var e :| e in edges;
      bound := SomeBound(edges - {e}, rank);
      bound := bound + rank(e.target) + 1;
    }
  }

  lemma IndexOf(entries: seq<Entry>, i: nat, j: nat)
    requires j < i <= |entries| && Distinct(Refs(entries))
    ensures FirstAt(entries, i, entries[j].ref) == j
  {
    var n := FirstAt(entries, i, entries[j].ref);
    SameRefSameEntry(entries, n, j);
  }

  /** Along an edge to a placed element the rank falls. */
  lemma ListedEdgeFalls(entries: seq<Entry>, i: nat, rank: Id -> nat, bound: nat, x: Edge)
    requires Distinct(Refs(entries)) && ParentsFirst(entries, None) && i <= |entries|
    requires x in Hierarchy(entries[..i])
    ensures var placed := PlacedRank(entries, i, rank, bound); placed(x.source) > placed(x.target)
  {
    hide Refs, Distinct;
    var done := entries[..i];
    var j :| 0 <= j < i && done[j].parent.Some? && x == Edge(done[j].parent.value, done[j].ref, Contains);
    assert entries[j].parent != None;
    var m :| 0 <= m < j && entries[j].parent == Some(entries[m].ref);
    IndexOf(entries, i, j);
    IndexOf(entries, i, m);
  }

  /** However many entries have been placed, in document order, containment is acyclic: even where the
      document turns an ancestor into a descendant. */
  lemma PlacedPrefixIsAcyclic(was: Snapshot, entries: seq<Entry>, i: nat)
    requires Acyclic(was.edges) && Distinct(Refs(entries)) && ParentsFirst(entries, None) && i <= |entries|
    ensures Acyclic(PlaceAll(was, entries[..i]).edges)
  {
    hide PlaceAll, Acyclic, Refs, Distinct;
    var done := entries[..i];
    DistinctPrefix(entries, i);
    PlacedEntriesShow(was, done);
    var rank := RankOf(was.edges);
    var bound := SomeBound(was.edges, rank);
    var placed := PlacedRank(entries, i, rank, bound);
    forall x | x in PlaceAll(was, done).edges && x.kind == Contains
      ensures placed(x.source) > placed(x.target)
    {
      if x in Hierarchy(done) {
        ListedEdgeFalls(entries, i, rank, bound, x);
      } else {
        assert x in Unplaced(was.edges, RefSet(done));
        NotPlaced(entries, i, x.target);
      }
    }
    RankedIsAcyclic(PlaceAll(was, done).edges, placed);
  }

  lemma RankedIsAcyclic(edges: set<Edge>, rank: Id -> nat)
    requires Ranked(edges, rank)
    ensures Acyclic(edges)
  {
  }

  lemma NotPlaced(entries: seq<Entry>, i: nat, id: Id)
    requires i <= |entries| && id !in RefSet(entries[..i])
    ensures !exists j :: 0 <= j < i && entries[j].ref == id
  {
    forall j | 0 <= j < i
      ensures entries[j].ref != id
    {
      assert entries[..i][j] in entries[..i];
    }
  }

  lemma DistinctPrefix(entries: seq<Entry>, i: nat)
    requires Distinct(Refs(entries)) && i <= |entries|
    ensures Distinct(Refs(entries[..i]))
  {
    forall m, n | 0 <= m < n < i
      ensures Refs(entries[..i])[m] != Refs(entries[..i])[n]
    {
      assert Refs(entries)[m] != Refs(entries)[n];
    }
  }

  lemma PlacedPrefixHasSingleParents(was: Snapshot, entries: seq<Entry>, i: nat)
    requires SingleParent(was.edges) && Distinct(Refs(entries)) && i <= |entries|
    ensures SingleParent(PlaceAll(was, entries[..i]).edges)
  {
    hide PlaceAll, Refs, Distinct;
    var done := entries[..i];
    DistinctPrefix(entries, i);
    PlacedEntriesShow(was, done);
    forall x, y | x in PlaceAll(was, done).edges && y in PlaceAll(was, done).edges &&
                  x.kind == Contains && y.kind == Contains && x.target == y.target
      ensures x.source == y.source
    {
      if x in Hierarchy(done) && y in Hierarchy(done) {
        var j :| 0 <= j < i && done[j].parent.Some? && x == Edge(done[j].parent.value, done[j].ref, Contains);
        var m :| 0 <= m < i && done[m].parent.Some? && y == Edge(done[m].parent.value, done[m].ref, Contains);
        SameRefSameEntry(done, j, m);
      } else if x in Hierarchy(done) {
        HierarchyIsPlaced(done, x);
      } else if y in Hierarchy(done) {
        HierarchyIsPlaced(done, y);
      }
    }
  }

  lemma SameRefSameEntry(entries: seq<Entry>, j: nat, m: nat)
    requires Distinct(Refs(entries)) && j < |entries| && m < |entries| && entries[j].ref == entries[m].ref
    ensures j == m
  {
    var refs := Refs(entries);
    assert refs[j] == refs[m];
  }

  lemma HierarchyIsPlaced(entries: seq<Entry>, x: Edge)
    requires x in Hierarchy(entries)
    ensures x.target in RefSet(entries)
  {
  }

  /** When the `k`th operation is about to run, the first `i` entries are in place, the operation is
      one of the next entry's, and no element and no edge differs from that. */
  lemma {:induction false} BeforeEachOp(s: Snapshot, entries: seq<Entry>, byId: map<Id, ModelElement>,
                                        parentOf: map<Id, Id>, k: nat) returns (i: nat)
    requires Distinct(Refs(entries)) && Accurate(s, entries, byId, parentOf)
    requires k < |OpsFor(entries, byId, parentOf)|
    ensures i < |entries| && OpsFor(entries, byId, parentOf)[k] in EntryOps(entries[i], byId, parentOf)
    ensures var now, placed := ApplyOps(s, OpsFor(entries, byId, parentOf)[..k]), PlaceAll(s, entries[..i]);
            now.edges == placed.edges && now.elements.Keys == placed.elements.Keys
    decreases |entries|
  {
    hide EntryOps, Accurate, Refs, Place, Distinct, ApplyOp;
    var ops := OpsFor(entries, byId, parentOf);
    var first, rest := EntryOps(entries[0], byId, parentOf), OpsFor(entries[1..], byId, parentOf);
    assert ops == first + rest;
    if k < |first| {
      i := 0;
      assert entries[..0] == [];
      assert ops[..k] == first[..k];
      FewOps(s, entries, byId, parentOf, k);
    } else {
      StillAccurate(s, entries, byId, parentOf);
      FirstAccurate(s, entries, byId, parentOf);
      EntryOpsPlace(s, entries[0], byId, parentOf);
      var next := Place(s, entries[0]);
      var i' := BeforeEachOp(next, entries[1..], byId, parentOf, k - |first|);
      i := i' + 1;
      assert ops[..k] == first + rest[..k - |first|];
      ApplyConcat(s, first, rest[..k - |first|]);
      assert entries[..i][0] == entries[0] && entries[..i][1..] == entries[1..][..i'];
    }
  }

  lemma FirstAccurate(s: Snapshot, entries: seq<Entry>, byId: map<Id, ModelElement>, parentOf: map<Id, Id>)
    requires entries != [] && Accurate(s, entries, byId, parentOf)
    ensures Accurate(s, [entries[0]], byId, parentOf)
  {
    assert entries[0] in entries;
  }

  /** Within one entry's operations at most a rename has run before the last of them. */
  lemma FewOps(s: Snapshot, entries: seq<Entry>, byId: map<Id, ModelElement>, parentOf: map<Id, Id>, k: nat)
    requires entries != [] && k < |EntryOps(entries[0], byId, parentOf)|
    ensures var now := ApplyOps(s, EntryOps(entries[0], byId, parentOf)[..k]);
            now.edges == s.edges && now.elements.Keys == s.elements.Keys
  {
    var ops := EntryOps(entries[0], byId, parentOf);
    if k == 1 {
      assert ops[..1] == [ops[0]] && ops[0].Rename?;
      assert ApplyOps(s, [ops[0]]) == ApplyOp(s, ops[0]);
    } else {
      assert ops[..0] == [];
    }
  }

  ghost predicate RefExists(ref: Option<Id>, s: Snapshot) {
    ref.Some? ==> ref.value in s.elements
  }

  /** Everything an operation refers to is there when it runs, and what it creates is not. */
  ghost predicate Applicable(op: GraphOp, s: Snapshot) {
    match op
    case Rename(id, _) => id in s.elements
    case Create(tempId, _, _, parent) => tempId !in s.elements && RefExists(parent, s)
    case Reparent(id, parent) => id in s.elements && RefExists(parent, s)
  }

  /** Before every operation of an accepted edit, containment is a forest and the operation applies. */
  lemma EveryStepKeepsTheForest(elements: seq<ModelElement>, edges: seq<Edge>, parsed: seq<ParsedElement>,
                                bodies: map<Id, Body>, k: nat)
    requires Diffable(elements, edges) && Acyclic(EdgeSet(edges)) && Diff(elements, edges, parsed).Accepted?
    requires k <= |Diff(elements, edges, parsed).ops|
    ensures var ops := Diff(elements, edges, parsed).ops;
            var now := ApplyOps(Current(elements, edges, bodies), ops[..k]);
            && Acyclic(now.edges) && SingleParent(now.edges)
            && (k < |ops| ==> Applicable(ops[k], now))
  {
    hide ById, Diff, Entries, Distinct, Refs, Accurate, Faithful, ParentMap, ApplyOps, PlaceAll, OpsFor, ParentsFirst,
         SingleParent, Acyclic, Applicable, EdgeSet, EntryOps;
    var entries := Entries(parsed, None, 0);
    var was := Current(elements, edges, bodies);
    var ops := Diff(elements, edges, parsed).ops;
    DiffAcceptsFaithfulEdits(elements, edges, parsed);
    AcceptedEntriesAreAccurate(elements, edges, parsed, bodies);
    if k == |ops| {
      assert ops[..k] == ops && entries[..|entries|] == entries;
      OpsPlaceEntries(was, entries, ById(elements), ParentMap(edges));
      PlacedPrefixIsAcyclic(was, entries, |entries|);
      PlacedPrefixHasSingleParents(was, entries, |entries|);
    } else {
      var i := BeforeEachOp(was, entries, ById(elements), ParentMap(edges), k);
      PlacedPrefixIsAcyclic(was, entries, i);
      PlacedPrefixHasSingleParents(was, entries, i);
      NextOpApplies(was, entries, ById(elements), ParentMap(edges), i, ops[k], ApplyOps(was, ops[..k]));
    }
  }

  lemma NextOpApplies(was: Snapshot, entries: seq<Entry>, byId: map<Id, ModelElement>, parentOf: map<Id, Id>, i: nat,
                      op: GraphOp, now: Snapshot)
    requires Distinct(Refs(entries)) && ParentsFirst(entries, None) && Accurate(was, entries, byId, parentOf)
    requires i < |entries| && op in EntryOps(entries[i], byId, parentOf)
    requires now.elements.Keys == PlaceAll(was, entries[..i]).elements.Keys
    ensures Applicable(op, now)
  {
    hide PlaceAll, Refs, Distinct, ParentsFirst, Accurate, RefSet, Unplaced, Hierarchy;
    DistinctPrefix(entries, i);
    PlacedEntriesShow(was, entries[..i]);
    EntryIsNew(was, entries, byId, parentOf, i);
    EarlierParent(entries, i);
  }

  lemma EntryIsNew(was: Snapshot, entries: seq<Entry>, byId: map<Id, ModelElement>, parentOf: map<Id, Id>, i: nat)
    requires Distinct(Refs(entries)) && Accurate(was, entries, byId, parentOf) && i < |entries|
    ensures entries[i].ref !in RefSet(entries[..i])
    ensures if entries[i].known then entries[i].ref in byId && entries[i].ref in was.elements
            else entries[i].ref !in was.elements
  {
    assert entries[i] in entries;
    forall e | e in entries[..i]
      ensures e.ref != entries[i].ref
    {
      var m :| 0 <= m < i && entries[m] == e;
      assert Refs(entries)[m] != Refs(entries)[i];
    }
  }

  lemma EarlierParent(entries: seq<Entry>, i: nat)
    requires ParentsFirst(entries, None) && i < |entries|
    ensures entries[i].parent.Some? ==> entries[i].parent.value in RefSet(entries[..i])
  {
    if entries[i].parent.Some? {
      var j :| 0 <= j < i && entries[i].parent == Some(entries[j].ref);
      assert entries[..i][j] == entries[j];
    }
  }
}
