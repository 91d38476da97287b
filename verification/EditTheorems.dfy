/** An edited text from the diff through the store to the recorded commit. */
module EditTheorems {
  import opened SysmlModel
  import opened Scanning
  import opened TextSyntax
  import opened Containment
  import opened GraphOps
  import opened TextDiff
  import opened DiffAcceptance
  import opened DiffRealisation
  import opened DiffTheorems
  import opened GraphStore
  import opened StoreTheorems

  ghost predicate FromEntries(op: GraphOp, entries: seq<Entry>, byId: map<Id, ModelElement>) {
    if op.Create? then exists e :: e in entries && !e.known && e.ref == op.tempId else op.id in byId
  }

  lemma {:induction false} OpsComeFromEntries(entries: seq<Entry>, byId: map<Id, ModelElement>, parentOf: map<Id, Id>,
                                              op: GraphOp)
    requires op in OpsFor(entries, byId, parentOf)
    ensures FromEntries(op, entries, byId)
    decreases |entries|
  {
    var first := entries[0];
    if op in EntryOps(first, byId, parentOf) {
      assert first in entries;
    } else {
      OpsComeFromEntries(entries[1..], byId, parentOf, op);
    }
  }

  /** No operation creates what an earlier one created. */
  lemma {:induction false} CreatedStays(s: Snapshot, ops: seq<GraphOp>, i: nat, j: nat)
    requires i < j <= |ops| && ops[i].Create?
    ensures ops[i].tempId in ApplyOps(s, ops[..j]).elements
    decreases j
  {
    hide ApplyOps, WithoutParents, ParentEdge;
    AppliedOneMore(s, map[], ops, j - 1);
    if i < j - 1 {
      CreatedStays(s, ops, i, j - 1);
    }
  }

  lemma DiffedBatchRunsThrough(elements: seq<ModelElement>, edges: seq<Edge>, parsed: seq<ParsedElement>,
                               bodies: map<Id, Body>)
    requires Diffable(elements, edges) && Acyclic(EdgeSet(edges)) && Diff(elements, edges, parsed).Accepted?
    requires NoTemps(SnapshotIds(Current(elements, edges, bodies)))
    ensures RunsThrough(Current(elements, edges, bodies), Diff(elements, edges, parsed).ops)
    ensures OwnTemps(Diff(elements, edges, parsed).ops, SnapshotIds(Current(elements, edges, bodies)))
  {
    hide Diff, Diffable, Acyclic, EdgeSet, ById, ParentMap, Entries, OpsFor, ApplyOps, SnapshotIds, EntryOps, TempId,
         Faithful, SoundEntries, Anchors, SingleParent;
    var was := Current(elements, edges, bodies);
    var ops := Diff(elements, edges, parsed).ops;
    var entries := Entries(parsed, None, 0);
    DiffAcceptsFaithfulEdits(elements, edges, parsed);
    EntriesAreSound(parsed, None, 0);
    forall k | 0 <= k < |ops|
      ensures RunsAt(was, ops, k)
      ensures ops[k].Create? ==> ops[k].tempId !in SnapshotIds(was)
    {
      EveryStepKeepsTheForest(elements, edges, parsed, bodies, k);
      EveryStepKeepsTheForest(elements, edges, parsed, bodies, k + 1);
      OpsComeFromEntries(entries, ById(elements), ParentMap(edges), ops[k]);
      CreatesAreTemps(entries, Anchors(parsed), ById(elements), ops[k]);
    }
    forall i, j | 0 <= i < j < |ops| && ops[i].Create? && ops[j].Create?
      ensures ops[i].tempId != ops[j].tempId
    {
      CreatedStays(was, ops, i, j);
      assert RunsAt(was, ops, j);
    }
  }

  lemma CreatesAreTemps(entries: seq<Entry>, anchors: seq<Anchored>, byId: map<Id, ModelElement>, op: GraphOp)
    requires SoundEntries(entries, anchors) && FromEntries(op, entries, byId)
    ensures op.Create? ==> exists n :: op.tempId == TempId(n)
  {
    hide TempId;
    if op.Create? {
      var e :| e in entries && !e.known && e.ref == op.tempId;
      assert SoundEntry(e, anchors);
    }
  }

  /** A model shows a document under real ids: its elements and no others, under their names and kinds, each
      below its parent. */
  ghost predicate ShowsUnderIds(m: map<Id, Id>, entries: seq<Entry>, live: Snapshot) {
    && live.elements.Keys == (set e | e in entries :: Renamed(m, e.ref))
    && (forall e :: e in entries ==>
          var x := live.elements[Renamed(m, e.ref)]; x.id == Renamed(m, e.ref) && x.kind == e.kind && x.name == e.name)
    && ContainsOf(live.edges) == RenameEdges(m, Hierarchy(entries))
  }

  lemma RenamingShows(m: map<Id, Id>, entries: seq<Entry>, end: Snapshot, live: Snapshot)
    requires IsRenaming(m, end, live) && end.elements.Keys == RefSet(entries)
    requires forall e :: e in entries ==>
             e.ref in end.elements && end.elements[e.ref].kind == e.kind && end.elements[e.ref].name == e.name
    requires ContainsOf(end.edges) == Hierarchy(entries)
    ensures ShowsUnderIds(m, entries, live)
  {
    hide Renamed, Hierarchy, ElementsRenamed;
    var ids := set e | e in entries :: Renamed(m, e.ref);
    forall e | e in entries
      ensures Renamed(m, e.ref) in live.elements
      ensures var x := live.elements[Renamed(m, e.ref)];
              x.id == Renamed(m, e.ref) && x.kind == e.kind && x.name == e.name
    {
      SameElement(m, end.elements, live.elements, e.ref);
    }
    forall r | r in live.elements
      ensures r in ids
    {
      var id := OriginalOf(m, end.elements, live.elements, r);
      RefHasEntry(entries, id);
    }
    assert live.elements.Keys == ids;
    RenamedContains(m, end.edges);
  }

  lemma OriginalOf(m: map<Id, Id>, a: map<Id, ModelElement>, b: map<Id, ModelElement>, r: Id) returns (id: Id)
    requires ElementsRenamed(m, a, b) && r in b
    ensures id in a && Renamed(m, id) == r
  {
    id :| id in a && Renamed(m, id) == r;
  }

  lemma RefHasEntry(entries: seq<Entry>, id: Id)
    requires id in RefSet(entries)
    ensures exists e :: e in entries && e.ref == id
  {
  }

  lemma RenamedContains(m: map<Id, Id>, edges: set<Edge>)
    ensures ContainsOf(RenameEdges(m, edges)) == RenameEdges(m, ContainsOf(edges))
  {
  }

  /** Edges that no operation of a batch writes keep the ids they have. */
  lemma OldEdgesStay(m: map<Id, Id>, was: Snapshot, end: Snapshot, live: Snapshot)
    requires m.Keys !! SnapshotIds(was) && IsRenaming(m, end, live)
    requires (set x | x in end.edges && x.kind != Contains) == (set x | x in was.edges && x.kind != Contains)
    requires end.bodies == was.bodies
    ensures (set x | x in live.edges && x.kind != Contains) == (set x | x in was.edges && x.kind != Contains)
    ensures live.bodies == was.bodies
  {
    hide SnapshotIds, ElementsRenamed;
    var before, now := set x | x in was.edges && x.kind != Contains, set x | x in live.edges && x.kind != Contains;
    EndsAreIds(was, SnapshotIds(was));
    BodiesAreIds(was);
    forall x | x in was.edges
      ensures RenameEdge(m, x) == x
    {
    }
    forall x | x in before
      ensures x in now
    {
      assert x in end.edges;
      assert RenameEdge(m, x) in RenameEdges(m, end.edges);
    }
    forall x | x in now
      ensures x in before
    {
      var e :| e in end.edges && x == RenameEdge(m, e);
      assert e in before;
      assert RenameEdge(m, e) == e;
    }
    forall id | id in live.bodies
      ensures id in was.bodies
    {
      var b :| b in was.bodies && Renamed(m, b) == id;
    }
  }

  lemma BodiesAreIds(s: Snapshot)
    ensures s.bodies.Keys <= SnapshotIds(s)
  {
  }

  /** The store applies an accepted edit exactly when the edit gives no element of the model a blank name.
      What it then holds is the edited document, new ids aside, and is what replaying the commit gives. */
  lemma AcceptedEditIsStored(elements: seq<ModelElement>, edges: seq<Edge>, parsed: seq<ParsedElement>,
                             bodies: map<Id, Body>, contains: seq<Edge>, uuids: nat -> Id)
    requires Diffable(elements, edges) && Acyclic(EdgeSet(edges)) && Diff(elements, edges, parsed).Accepted?
    requires var was := Current(elements, edges, bodies);
             var ops := Diff(elements, edges, parsed).ops;
             && NoTemps(SnapshotIds(was)) && EdgeSet(contains) == ContainsOf(was.edges)
             && FreshIds(uuids, SnapshotIds(was) + AllMentions(ops))
    ensures var was := Current(elements, edges, bodies);
            var ops := Diff(elements, edges, parsed).ops;
            var plan := Checks(contains, was.elements.Keys, uuids, ops);
            var live := WrittenAll(was, plan.idMap, ops);
            && (plan.errors == [] <==> forall op :: op in ops ==> !BlankRename(op))
            && (plan.errors == [] ==>
                && live == ApplyOps(was, ResolveOpsToRealIds(ops, plan.idMap))
                && IsRenaming(plan.idMap, ApplyOps(was, ops), live)
                && ShowsUnderIds(plan.idMap, Entries(parsed, None, 0), live)
                && (set x | x in live.edges && x.kind != Contains) == (set x | x in was.edges && x.kind != Contains)
                && live.bodies == bodies
                && Acyclic(live.edges) && SingleParent(live.edges))
  {
    hide Diff, Acyclic, ApplyOps, ById, SnapshotIds, Mentions, AllMentions, OwnTemps, NoTemps, RunsThrough, Checks,
         WrittenAll, ResolveOpsToRealIds, IsRenaming, SingleParent, BlankRename, ContainsOf, Entries, ShowsUnderIds;
    var was := Current(elements, edges, bodies);
    var ops := Diff(elements, edges, parsed).ops;
    DiffedBatchRunsThrough(elements, edges, parsed, bodies);
    AllMentioned(ops);
    ModelIsStored(elements, edges, bodies, contains);
    BatchIsAppliedIff(was, contains, uuids, ops);
    if Checks(contains, was.elements.Keys, uuids, ops).errors == [] {
      AppliedBatchIsReplayed(was, contains, uuids, ops);
      AppliedEditShows(elements, edges, parsed, bodies, contains, uuids);
    }
  }

  lemma AppliedEditShows(elements: seq<ModelElement>, edges: seq<Edge>, parsed: seq<ParsedElement>,
                         bodies: map<Id, Body>, contains: seq<Edge>, uuids: nat -> Id)
    requires Diffable(elements, edges) && Diff(elements, edges, parsed).Accepted?
    requires var was := Current(elements, edges, bodies);
             var ops := Diff(elements, edges, parsed).ops;
             && Ready(was, contains, uuids, ops)
             && Checks(contains, was.elements.Keys, uuids, ops).errors == []
    ensures var was := Current(elements, edges, bodies);
            var ops := Diff(elements, edges, parsed).ops;
            var m := Checks(contains, was.elements.Keys, uuids, ops).idMap;
            var live := WrittenAll(was, m, ops);
            && ShowsUnderIds(m, Entries(parsed, None, 0), live)
            && (set x | x in live.edges && x.kind != Contains) == (set x | x in was.edges && x.kind != Contains)
            && live.bodies == bodies
  {
    hide Diffable, Diff, Acyclic, ApplyOps, ById, SnapshotIds, Mentions, OwnTemps, Checks, WrittenAll,
         ResolveOpsToRealIds, IsRenaming, SingleParent, Entries, Hierarchy, RefSet, Stored, SoundMap, ElementFor,
         EdgeSet, FreshIds, Distinct, Refs, InjectiveOn;
    var was := Current(elements, edges, bodies);
    var ops := Diff(elements, edges, parsed).ops;
    var m := Checks(contains, was.elements.Keys, uuids, ops).idMap;
    var end := ApplyOps(was, ops);
    AppliedBatchIsReplayed(was, contains, uuids, ops);
    DiffRealisesTheEdit(elements, edges, parsed, bodies);
    MapAvoidsModel(was, contains, uuids, ops);
    RefsAreThere(Entries(parsed, None, 0), end);
    RenamingShows(m, Entries(parsed, None, 0), end, WrittenAll(was, m, ops));
    OldEdgesStay(m, was, end, WrittenAll(was, m, ops));
  }

  lemma RefsAreThere(entries: seq<Entry>, end: Snapshot)
    requires end.elements.Keys == RefSet(entries)
    ensures forall e :: e in entries ==> e.ref in end.elements
  {
    hide RefSet;
    forall e | e in entries
      ensures e.ref in end.elements
    {
      RefIn(entries, e);
    }
  }

  lemma {:induction false} AllMentioned(ops: seq<GraphOp>)
    ensures forall op :: op in ops ==> Mentions(op) <= AllMentions(ops)
    decreases |ops|
  {
    hide Mentions;
    if ops != [] {
      AllMentioned(ops[1..]);
    }
  }

  lemma ModelIsStored(elements: seq<ModelElement>, edges: seq<Edge>, bodies: map<Id, Body>, contains: seq<Edge>)
    requires Diffable(elements, edges) && EdgeSet(contains) == ContainsOf(EdgeSet(edges))
    ensures Stored(Current(elements, edges, bodies), contains)
    ensures forall id :: id in ById(elements) ==> ById(elements)[id].id == id
  {
    hide SingleParent, NoTemps;
    OwnIds(elements);
  }

  lemma {:induction false} OwnIds(elements: seq<ModelElement>)
    ensures forall id :: id in ById(elements) ==> ById(elements)[id].id == id
    decreases |elements|
  {
    if elements != [] {
      OwnIds(elements[..|elements| - 1]);
    }
  }

  // ----- What goes wrong when temporary ids are not a batch's own -----

  function Nothing(): Snapshot {
    Snapshot(map[], {}, map[])
  }

  /** Two new elements under one temporary id pass the check, which tells them apart; the writes do not,
      and hang the element below itself. */
  lemma SharedTempIdMakesACycle(uuids: nat -> Id)
    requires forall m, n :: uuids(m) == uuids(n) ==> m == n
    ensures var ops := [Create("t", Element, "a", None), Create("t", Element, "b", Some("t"))];
            var plan := Checks([], {}, uuids, ops);
            plan.errors == [] && !Acyclic(WrittenAll(Nothing(), plan.idMap, ops).edges)
  {
    var first, second := Create("t", Element, "a", None), Create("t", Element, "b", Some("t"));
    var ops := [first, second];
    var plan1 := Checks([], {}, uuids, [first]);
    NothingChecked([], {}, uuids);
    ChecksOneMore([], {}, uuids, ops, 0);
    ChecksOneMore([], {}, uuids, ops, 1);
    assert ops[..0] == [] && ops[..1] == [first] && ops[..2] == ops;
    assert plan1.idMap == map["t" := uuids(0)];
    assert plan1.idMap["t"] in plan1.idMap.Values;
    var m := Checks([], {}, uuids, ops).idMap;
    assert m["t"] == uuids(1);
    WrittenOneMore(Nothing(), m, ops, 0);
    WrittenOneMore(Nothing(), m, ops, 1);
    NothingWritten(Nothing(), m);
    var edges := WrittenAll(Nothing(), m, ops).edges;
    assert Edge(uuids(1), uuids(1), Contains) in edges;
    assert Descent(edges, [uuids(1), uuids(1)]);
    AcyclicMeansNoCycle(edges);
  }

  /** A temporary id that is also an element's real id: the store renames the element, the replayed commit
      renames the new one. */
  lemma RealIdAsTempIdBreaksReplay(uuids: nat -> Id)
    requires uuids(0) != "a"
    ensures var s := Snapshot(map["a" := ModelElement("a", Element, "old", true, Human)], {}, map[]);
            var ops := [Create("a", Element, "new", None), Rename("a", "newer")];
            var plan := Checks([], s.elements.Keys, uuids, ops);
            && plan.errors == []
            && WrittenAll(s, plan.idMap, ops) != ApplyOps(s, ResolveOpsToRealIds(ops, plan.idMap))
  {
    hide Checks, WrittenAll, MergedEdge, ParentEdge;
    var s := Snapshot(map["a" := ModelElement("a", Element, "old", true, Human)], {}, map[]);
    var first, second := Create("a", Element, "new", None), Rename("a", "newer");
    var ops := [first, second];
    var existing := s.elements.Keys;
    ReusedIdPasses(s, uuids, ops);
    var m := Checks([], existing, uuids, ops).idMap;
    WrittenOneMore(s, m, ops, 0);
    WrittenOneMore(s, m, ops, 1);
    NothingWritten(s, m);
    AppliedOneMore(s, m, ops, 0);
    AppliedOneMore(s, m, ops, 1);
    assert ops[..0] == [] && ops[..1] == [first] && ops[..2] == ops;
    assert ResolveOpsToRealIds([], m) == [];
    assert ApplyOps(s, []) == s;
    assert WrittenAll(s, m, ops).elements["a"].name == "newer";
    assert ApplyOps(s, ResolveOpsToRealIds(ops, m)).elements["a"].name == "old";
  }

  lemma ReusedIdPasses(s: Snapshot, uuids: nat -> Id, ops: seq<GraphOp>)
    requires "a" in s.elements && ops == [Create("a", Element, "new", None), Rename("a", "newer")]
    ensures Checks([], s.elements.Keys, uuids, ops).errors == []
    ensures Checks([], s.elements.Keys, uuids, ops).idMap == map["a" := uuids(0)]
  {
    NothingChecked([], s.elements.Keys, uuids);
    ChecksOneMore([], s.elements.Keys, uuids, ops, 0);
    ChecksOneMore([], s.elements.Keys, uuids, ops, 1);
    assert ops[..0] == [] && ops[..1] == [ops[0]] && ops[..2] == ops;
    assert "newer"[0] in "newer" && !IsWhitespace('n');
  }
}
