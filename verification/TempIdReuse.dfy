/** Batches whose temporary ids are not their own: used twice, or already the id of an element. What the store
    then writes, and exactly when it is still what the recorded batch replays. */
module TempIdReuse {
  import opened SysmlModel
  import opened GraphOps
  import opened GraphStore
  import opened StoreTheorems

  /** No two new elements share a temporary id. */
  ghost predicate DistinctTemps(ops: seq<GraphOp>) {
    forall i, j :: 0 <= i < j < |ops| && ops[i].Create? && ops[j].Create? ==> ops[i].tempId != ops[j].tempId
  }

  function CreateCount(ops: seq<GraphOp>): nat {
    if ops == [] then 0 else CreateCount(ops[..|ops| - 1]) + if ops[|ops| - 1].Create? then 1 else 0
  }

  // ----- The map an accepted batch ends with -----

  lemma ErrorsGrow(plan: Plan, existing: set<Id>, uuids: nat -> Id, index: nat, op: GraphOp)
    ensures plan.errors <= Checked(plan, existing, uuids, index, op).errors
  {
    hide Blank, Known, IsBelow, ParentEdge;
  }

  lemma {:induction false} AcceptedSoFar(contains: seq<Edge>, existing: set<Id>, uuids: nat -> Id, ops: seq<GraphOp>,
                                         k: nat)
    requires k <= |ops| && Checks(contains, existing, uuids, ops).errors == []
    ensures Checks(contains, existing, uuids, ops[..k]).errors == []
    decreases |ops| - k
  {
    hide Checks, Checked;
    if k == |ops| {
      assert ops[..k] == ops;
    } else {
      AcceptedSoFar(contains, existing, uuids, ops, k + 1);
      ChecksOneMore(contains, existing, uuids, ops, k);
      ErrorsGrow(Checks(contains, existing, uuids, ops[..k]), existing, uuids, k, ops[k]);
    }
  }

  lemma StepMints(plan: Plan, existing: set<Id>, uuids: nat -> Id, index: nat, op: GraphOp)
    requires SoundMap(plan.idMap, uuids, plan.minted) && forall m, n :: uuids(m) == uuids(n) ==> m == n
    requires plan.errors == [] && Checked(plan, existing, uuids, index, op).errors == []
    ensures var after := Checked(plan, existing, uuids, index, op);
            && SoundMap(after.idMap, uuids, after.minted)
            && after.idMap == if op.Create? then plan.idMap[op.tempId := uuids(plan.minted)] else plan.idMap
  {
    hide Blank, Known, IsBelow, ParentEdge, SoundMap;
    if op.Create? {
      MintOne(plan.idMap, uuids, plan.minted, op.tempId);
    }
  }

  lemma TempsOneMore(ops: seq<GraphOp>, k: nat)
    requires k < |ops|
    ensures TempsOf(ops[..k + 1]) == TempsOf(ops[..k]) + if ops[k].Create? then {ops[k].tempId} else {}
  {
    assert ops[..k + 1] == ops[..k] + [ops[k]];
    TempsConcat(ops[..k], [ops[k]]);
    assert ops[k] in [ops[k]];
  }

  /** Real ids are given to just the temporary ids of the batch, each its own. */
  lemma {:induction false} AcceptedMap(contains: seq<Edge>, existing: set<Id>, uuids: nat -> Id, ops: seq<GraphOp>,
                                       k: nat)
    requires k <= |ops| && Checks(contains, existing, uuids, ops).errors == [] &&
             forall m, n :: uuids(m) == uuids(n) ==> m == n
    ensures var plan := Checks(contains, existing, uuids, ops[..k]);
            SoundMap(plan.idMap, uuids, plan.minted) && plan.idMap.Keys == TempsOf(ops[..k])
    decreases k
  {
    hide Checks, Checked, SoundMap, TempsOf;
    if k == 0 {
      NothingChecked(contains, existing, uuids);
      NoTempsIn(ops[..0]);
    } else {
      AcceptedMap(contains, existing, uuids, ops, k - 1);
      AcceptedSoFar(contains, existing, uuids, ops, k - 1);
      AcceptedSoFar(contains, existing, uuids, ops, k);
      ChecksOneMore(contains, existing, uuids, ops, k - 1);
      StepMints(Checks(contains, existing, uuids, ops[..k - 1]), existing, uuids, k - 1, ops[k - 1]);
      TempsOneMore(ops, k - 1);
    }
  }

  lemma NoTempsIn(ops: seq<GraphOp>)
    requires |ops| == 0
    ensures ops == [] && TempsOf(ops) == {}
  {
  }

  lemma NewTemp(ops: seq<GraphOp>, k: nat)
    requires DistinctTemps(ops) && k < |ops| && ops[k].Create?
    ensures ops[k].tempId !in TempsOf(ops[..k])
  {
  }

  /** With distinct temporary ids, one that has a real id keeps it. */
  lemma {:induction false} MapStays(contains: seq<Edge>, existing: set<Id>, uuids: nat -> Id, ops: seq<GraphOp>, k: nat)
    requires DistinctTemps(ops) && k <= |ops| && Checks(contains, existing, uuids, ops).errors == []
    requires forall m, n :: uuids(m) == uuids(n) ==> m == n
    ensures Extends(Checks(contains, existing, uuids, ops).idMap, Checks(contains, existing, uuids, ops[..k]).idMap)
    decreases |ops| - k
  {
    hide Checks, Checked, SoundMap, TempsOf, DistinctTemps;
    if k == |ops| {
      assert ops[..k] == ops;
    } else {
      MapStays(contains, existing, uuids, ops, k + 1);
      AcceptedMap(contains, existing, uuids, ops, k);
      AcceptedSoFar(contains, existing, uuids, ops, k);
      AcceptedSoFar(contains, existing, uuids, ops, k + 1);
      ChecksOneMore(contains, existing, uuids, ops, k);
      StepMints(Checks(contains, existing, uuids, ops[..k]), existing, uuids, k, ops[k]);
      if ops[k].Create? {
        NewTemp(ops, k);
      }
    }
  }

  // ----- One new element per new id -----

  function RealIds(m: map<Id, Id>, temps: set<Id>): set<Id> {
    set t | t in temps :: Renamed(m, t)
  }

  lemma RealIdsUnion(m: map<Id, Id>, a: set<Id>, b: set<Id>)
    ensures RealIds(m, a + b) == RealIds(m, a) + RealIds(m, b)
  {
  }

  /** The elements after a batch is written are those before and those under the new ids. */
  lemma {:induction false} WrittenKeys(s: Snapshot, m: map<Id, Id>, ops: seq<GraphOp>, k: nat)
    requires k <= |ops|
    ensures WrittenAll(s, m, ops[..k]).elements.Keys == s.elements.Keys + RealIds(m, TempsOf(ops[..k]))
    decreases k
  {
    hide Written, TempsOf, RealIds;
    if k == 0 {
      NoTempsIn(ops[..0]);
      NothingWritten(s, m);
      NoRealIds(m);
    } else {
      WrittenKeys(s, m, ops, k - 1);
      WrittenOneMore(s, m, ops, k - 1);
      KeysAfter(WrittenAll(s, m, ops[..k - 1]), m, ops[k - 1]);
      TempsOneMore(ops, k - 1);
      if ops[k - 1].Create? {
        RealIdsUnion(m, TempsOf(ops[..k - 1]), {ops[k - 1].tempId});
        OneRealId(m, ops[k - 1].tempId);
      } else {
        assert TempsOf(ops[..k]) == TempsOf(ops[..k - 1]);
      }
    }
  }

  lemma NoRealIds(m: map<Id, Id>)
    ensures RealIds(m, {}) == {}
  {
  }

  lemma OneRealId(m: map<Id, Id>, t: Id)
    ensures RealIds(m, {t}) == {Renamed(m, t)}
  {
  }

  lemma KeysAfter(s: Snapshot, m: map<Id, Id>, op: GraphOp)
    ensures Written(s, m, op).elements.Keys == s.elements.Keys + if op.Create? then {Renamed(m, op.tempId)} else {}
  {
  }

  lemma {:induction false} RealIdsCount(m: map<Id, Id>, temps: set<Id>)
    requires temps <= m.Keys && forall t, u :: t in m && u in m && m[t] == m[u] ==> t == u
    ensures |RealIds(m, temps)| == |temps|
    decreases temps
  {
    if temps == {} {
      NoRealIds(m);
    } else {
      var t :| t in temps;
      var rest := temps - {t};
      RealIdsCount(m, rest);
      assert temps == rest + {t};
      RealIdsUnion(m, rest, {t});
      OneRealId(m, t);
      assert Renamed(m, t) !in RealIds(m, rest);
    }
  }

  /** There are at most as many temporary ids as new elements, and as many just if they are pairwise different. */
  lemma {:induction false} TempsCount(ops: seq<GraphOp>)
    ensures |TempsOf(ops)| <= CreateCount(ops)
    ensures |TempsOf(ops)| == CreateCount(ops) <==> DistinctTemps(ops)
    decreases |ops|
  {
    hide TempsOf, DistinctTemps;
    if ops == [] {
      NoTempsIn(ops);
      DistinctIn(ops);
    } else {
      var k := |ops| - 1;
      TempsCount(ops[..k]);
      TempsOneMore(ops, k);
      assert ops[..k + 1] == ops;
      DistinctOneMore(ops);
    }
  }

  lemma DistinctIn(ops: seq<GraphOp>)
    requires ops == []
    ensures DistinctTemps(ops)
  {
  }

  lemma DistinctOneMore(ops: seq<GraphOp>)
    requires ops != []
    ensures var k := |ops| - 1;
            DistinctTemps(ops) <==> DistinctTemps(ops[..k]) && (ops[k].Create? ==> ops[k].tempId !in TempsOf(ops[..k]))
  {
    var k := |ops| - 1;
    if DistinctTemps(ops) && ops[k].Create? {
      NewTemp(ops, k);
    }
    if DistinctTemps(ops[..k]) && (ops[k].Create? ==> ops[k].tempId !in TempsOf(ops[..k])) {
      forall i, j | 0 <= i < j < |ops| && ops[i].Create? && ops[j].Create?
        ensures ops[i].tempId != ops[j].tempId
      {
        assert ops[i] == ops[..k][i];
        if j == k {
          assert ops[..k][i] in ops[..k];
        } else {
          assert ops[j] == ops[..k][j];
        }
      }
    }
  }

  lemma AllNew(m: map<Id, Id>, uuids: nat -> Id, minted: nat, existing: set<Id>, temps: set<Id>)
    requires SoundMap(m, uuids, minted) && temps <= m.Keys && forall n :: uuids(n) !in existing
    ensures RealIds(m, temps) !! existing
    ensures forall t, u :: t in m && u in m && m[t] == m[u] ==> t == u
  {
  }

  /** A batch that passes gives every new element a place of its own exactly when no two of them share a
      temporary id. */
  lemma OneElementPerCreateIff(s: Snapshot, contains: seq<Edge>, uuids: nat -> Id, ops: seq<GraphOp>)
    requires FreshIds(uuids, s.elements.Keys) && Checks(contains, s.elements.Keys, uuids, ops).errors == []
    ensures var live := WrittenAll(s, Checks(contains, s.elements.Keys, uuids, ops).idMap, ops);
            |live.elements| == |s.elements| + CreateCount(ops) <==> DistinctTemps(ops)
  {
    hide Checks, WrittenAll, SoundMap, TempsOf, RealIds, DistinctTemps, CreateCount;
    var existing := s.elements.Keys;
    var plan := Checks(contains, existing, uuids, ops);
    var temps := TempsOf(ops);
    assert ops[..|ops|] == ops;
    AcceptedMap(contains, existing, uuids, ops, |ops|);
    WrittenKeys(s, plan.idMap, ops, |ops|);
    AllNew(plan.idMap, uuids, plan.minted, existing, temps);
    RealIdsCount(plan.idMap, temps);
    TempsCount(ops);
    var live := WrittenAll(s, plan.idMap, ops);
    assert |live.elements| == |live.elements.Keys| && |s.elements| == |existing|;
  }

  // ----- Where writing and replay part -----

  function ParentsIn(edges: set<Edge>, id: Id): set<Edge> {
    set e | e in edges && e.target == id && e.kind == Contains
  }

  /** An operation that is written otherwise than it is replayed: it renames or moves an element whose id the
      batch also uses for a new one, with an effect on either, or hangs an element below a new one that is not
      there yet. */
  predicate Crosses(s: Snapshot, m: map<Id, Id>, op: GraphOp) {
    match op
    case Rename(id, name) =>
      id in m && ((id in s.elements && s.elements[id].name != name) ||
                  (m[id] in s.elements && s.elements[m[id]].name != name))
    case Create(tempId, _, _, parentId) =>
      parentId.Some? && Renamed(m, parentId.value) != Renamed(m, tempId) && Renamed(m, parentId.value) !in s.elements
    case Reparent(id, newParentId) =>
      var parent := RenamedRef(m, newParentId);
      if id in m then
        ParentsIn(s.edges, id) != MergedEdge(s.elements, parent, id) ||
          ParentsIn(s.edges, m[id]) != ParentEdge(parent, m[id])
      else parent.Some? && parent.value !in s.elements
  }

  /** Containment leads to elements that are there. */
  ghost predicate Closed(s: Snapshot) {
    forall e :: e in s.edges && e.kind == Contains ==> e.target in s.elements
  }

  lemma WrittenStaysClosed(s: Snapshot, m: map<Id, Id>, op: GraphOp)
    requires Closed(s)
    ensures Closed(Written(s, m, op))
  {
  }

  lemma {:induction false} ClosedAt(s: Snapshot, m: map<Id, Id>, ops: seq<GraphOp>, k: nat)
    requires Closed(s) && k <= |ops|
    ensures Closed(WrittenAll(s, m, ops[..k]))
    decreases k
  {
    hide Closed, Written;
    if k == 0 {
      assert ops[..0] == [];
      NothingWritten(s, m);
    } else {
      ClosedAt(s, m, ops, k - 1);
      WrittenOneMore(s, m, ops, k - 1);
      WrittenStaysClosed(WrittenAll(s, m, ops[..k - 1]), m, ops[k - 1]);
    }
  }

  /** What is known of an accepted operation in the state it is written in. */
  ghost predicate Fits(s: Snapshot, m: map<Id, Id>, op: GraphOp) {
    && Closed(s)
    && if op.Create? then op.tempId in m && m[op.tempId] !in s.elements
       else op.id in s.elements && (op.id in m ==> m[op.id] != op.id)
  }

  lemma RenameCrosses(s: Snapshot, m: map<Id, Id>, op: GraphOp)
    requires Fits(s, m, op) && op.Rename?
    ensures Written(s, m, op) == ApplyOp(s, ResolveOp(m, op)) <==> !Crosses(s, m, op)
  {
    if op.id in m {
      var written := s.elements[op.id := s.elements[op.id].(name := op.name)];
      var replayed := ApplyOp(s, ResolveOp(m, op)).elements;
      assert written[op.id].name == op.name && replayed[op.id] == s.elements[op.id];
      if m[op.id] in s.elements {
        assert written[m[op.id]] == s.elements[m[op.id]] && replayed[m[op.id]].name == op.name;
      }
      if !Crosses(s, m, op) {
        assert written == s.elements == replayed;
      }
    }
  }

  lemma CreateCrosses(s: Snapshot, m: map<Id, Id>, op: GraphOp)
    requires Fits(s, m, op) && op.Create?
    ensures Written(s, m, op) == ApplyOp(s, ResolveOp(m, op)) <==> !Crosses(s, m, op)
  {
    var id, parent := m[op.tempId], RenamedRef(m, op.parentId);
    if parent.Some? {
      var e := Edge(parent.value, id, Contains);
      assert e !in s.edges;
      assert e in ApplyOp(s, ResolveOp(m, op)).edges;
      assert e in Written(s, m, op).edges <==> parent.value in s.elements || parent.value == id;
      assert MergedEdge(s.elements[id := ModelElement(id, op.kind, op.name, true, Human)], parent, id) <= {e};
    }
  }

  lemma PartsOf(edges: set<Edge>, id: Id, more: set<Edge>)
    requires forall e :: e in more ==> e.target == id && e.kind == Contains
    ensures ParentsIn(WithoutParents(edges, id) + more, id) == more
    ensures forall x :: x != id ==> ParentsIn(WithoutParents(edges, id) + more, x) == ParentsIn(edges, x)
    ensures forall e: Edge :: e.target != id || e.kind != Contains ==>
            (e in WithoutParents(edges, id) + more <==> e in edges)
  {
  }

  lemma SameParts(a: set<Edge>, b: set<Edge>, id: Id, r: Id)
    requires forall e: Edge :: !(e.kind == Contains && (e.target == id || e.target == r)) ==> (e in a <==> e in b)
    ensures a == b <==> ParentsIn(a, id) == ParentsIn(b, id) && ParentsIn(a, r) == ParentsIn(b, r)
  {
    if ParentsIn(a, id) == ParentsIn(b, id) && ParentsIn(a, r) == ParentsIn(b, r) {
      forall e
        ensures e in a <==> e in b
      {
        assert e in a && e.kind == Contains ==> e in ParentsIn(a, e.target);
        assert e in b && e.kind == Contains ==> e in ParentsIn(b, e.target);
      }
    }
  }

  lemma MergedTargets(elements: map<Id, ModelElement>, parent: Option<Id>, id: Id)
    ensures forall e :: e in MergedEdge(elements, parent, id) ==> e.target == id && e.kind == Contains
    ensures forall e :: e in ParentEdge(parent, id) ==> e.target == id && e.kind == Contains
    ensures id in elements ==>
            (MergedEdge(elements, parent, id) == ParentEdge(parent, id) <==>
             (parent.Some? ==> parent.value in elements))
  {
    if parent.Some? {
      assert Edge(parent.value, id, Contains) in ParentEdge(parent, id);
    }
  }

  lemma MoveCrosses(s: Snapshot, m: map<Id, Id>, op: GraphOp)
    requires Fits(s, m, op) && op.Reparent?
    ensures Written(s, m, op) == ApplyOp(s, ResolveOp(m, op)) <==> !Crosses(s, m, op)
  {
    hide Closed, MergedEdge, ParentEdge, WithoutParents, ParentsIn, RenamedRef;
    var id, r, parent := op.id, Renamed(m, op.id), RenamedRef(m, op.newParentId);
    var merged, given := MergedEdge(s.elements, parent, id), ParentEdge(parent, r);
    MergedTargets(s.elements, parent, id);
    MergedTargets(s.elements, parent, r);
    PartsOf(s.edges, id, merged);
    PartsOf(s.edges, r, given);
    var written, replayed := WithoutParents(s.edges, id) + merged, WithoutParents(s.edges, r) + given;
    SameParts(written, replayed, id, r);
    assert Written(s, m, op) == s.(edges := written) && ApplyOp(s, ResolveOp(m, op)) == s.(edges := replayed);
  }

  /** An operation is written as it is replayed exactly when it does not cross. */
  lemma CrossesIff(s: Snapshot, m: map<Id, Id>, op: GraphOp)
    requires Fits(s, m, op)
    ensures Written(s, m, op) == ApplyOp(s, ResolveOp(m, op)) <==> !Crosses(s, m, op)
  {
    hide *;
    match op {
      case Rename(_, _) => RenameCrosses(s, m, op);
      case Create(_, _, _, _) => CreateCrosses(s, m, op);
      case Reparent(_, _) => MoveCrosses(s, m, op);
    }
  }

  // ----- A batch -----

  /** A model with containment among its elements, new ids that are new, and a batch that passes with distinct
      temporary ids, which may be ids of elements. */
  ghost predicate Passes(s: Snapshot, contains: seq<Edge>, uuids: nat -> Id, ops: seq<GraphOp>) {
    && Closed(s) && FreshIds(uuids, s.elements.Keys) && DistinctTemps(ops)
    && Checks(contains, s.elements.Keys, uuids, ops).errors == []
  }

  /** The model in the store and the replayed one after the first `k` operations. */
  ghost predicate AgreeAt(s: Snapshot, m: map<Id, Id>, ops: seq<GraphOp>, k: nat)
    requires k <= |ops|
  {
    WrittenAll(s, m, ops[..k]) == ApplyOps(s, ResolveOpsToRealIds(ops[..k], m))
  }

  lemma OldTargets(plan: Plan, existing: set<Id>, uuids: nat -> Id, index: nat, op: GraphOp)
    requires plan.errors == [] && Checked(plan, existing, uuids, index, op).errors == []
    ensures OldTarget(op, existing)
  {
    hide Blank, Known, IsBelow, ParentEdge;
  }

  lemma MapAt(s: Snapshot, contains: seq<Edge>, uuids: nat -> Id, ops: seq<GraphOp>)
    requires Passes(s, contains, uuids, ops)
    ensures var plan := Checks(contains, s.elements.Keys, uuids, ops);
            SoundMap(plan.idMap, uuids, plan.minted) && plan.idMap.Keys == TempsOf(ops)
  {
    hide Closed, DistinctTemps, Checks, SoundMap, TempsOf;
    assert ops[..|ops|] == ops;
    AcceptedMap(contains, s.elements.Keys, uuids, ops, |ops|);
  }

  lemma EachFits(s: Snapshot, contains: seq<Edge>, uuids: nat -> Id, ops: seq<GraphOp>, k: nat)
    requires Passes(s, contains, uuids, ops) && k < |ops|
    ensures var m := Checks(contains, s.elements.Keys, uuids, ops).idMap;
            Fits(WrittenAll(s, m, ops[..k]), m, ops[k])
  {
    hide Closed, DistinctTemps, Checks, Checked, WrittenAll, SoundMap, TempsOf, RealIds;
    var existing := s.elements.Keys;
    var plan := Checks(contains, existing, uuids, ops);
    MapAt(s, contains, uuids, ops);
    WrittenKeys(s, plan.idMap, ops, k);
    ClosedAt(s, plan.idMap, ops, k);
    AcceptedSoFar(contains, existing, uuids, ops, k);
    AcceptedSoFar(contains, existing, uuids, ops, k + 1);
    ChecksOneMore(contains, existing, uuids, ops, k);
    OldTargets(Checks(contains, existing, uuids, ops[..k]), existing, uuids, k, ops[k]);
    if ops[k].Create? {
      NewTemp(ops, k);
      TempIn(ops, k);
      NewIdIsNew(plan.idMap, uuids, plan.minted, existing, TempsOf(ops[..k]), ops[k].tempId);
    } else if ops[k].id in plan.idMap {
      NewIdsAreNew(plan.idMap, uuids, plan.minted, existing, ops[k].id);
    }
  }

  lemma TempIn(ops: seq<GraphOp>, k: nat)
    requires k < |ops| && ops[k].Create?
    ensures ops[k].tempId in TempsOf(ops) && TempsOf(ops[..k]) <= TempsOf(ops)
  {
  }

  lemma NewIdsAreNew(m: map<Id, Id>, uuids: nat -> Id, minted: nat, existing: set<Id>, t: Id)
    requires SoundMap(m, uuids, minted) && t in m && forall n :: uuids(n) !in existing
    ensures m[t] !in existing
  {
  }

  lemma NewIdIsNew(m: map<Id, Id>, uuids: nat -> Id, minted: nat, existing: set<Id>, temps: set<Id>, t: Id)
    requires SoundMap(m, uuids, minted) && t in m && temps <= m.Keys && t !in temps && forall n :: uuids(n) !in existing
    ensures m[t] !in existing + RealIds(m, temps)
  {
    hide SoundMap;
    NewIdsAreNew(m, uuids, minted, existing, t);
    AllNew(m, uuids, minted, existing, temps);
  }

  /** As long as no operation has crossed, the store holds what replay gives; the first that crosses makes the
      two differ. */
  lemma {:induction false} AgreesUntilCrossing(s: Snapshot, contains: seq<Edge>, uuids: nat -> Id, ops: seq<GraphOp>,
                                               k: nat)
    requires Passes(s, contains, uuids, ops) && k <= |ops|
    ensures var m := Checks(contains, s.elements.Keys, uuids, ops).idMap;
            (forall j :: 0 <= j <= k ==> AgreeAt(s, m, ops, j)) <==>
              forall j :: 0 <= j < k ==> !Crosses(WrittenAll(s, m, ops[..j]), m, ops[j])
    decreases k
  {
    hide Passes, Checks, AgreeAt, Crosses, WrittenAll, Fits;
    var m := Checks(contains, s.elements.Keys, uuids, ops).idMap;
    if k == 0 {
      StartsAgreeing(s, m, ops);
    } else {
      AgreesUntilCrossing(s, contains, uuids, ops, k - 1);
      if AgreeAt(s, m, ops, k - 1) {
        EachFits(s, contains, uuids, ops, k - 1);
        NextAgreesIff(s, m, ops, k - 1);
      }
    }
  }

  lemma StartsAgreeing(s: Snapshot, m: map<Id, Id>, ops: seq<GraphOp>)
    ensures AgreeAt(s, m, ops, 0)
  {
    assert ops[..0] == [] && ResolveOpsToRealIds([], m) == [];
  }

  lemma NextAgreesIff(s: Snapshot, m: map<Id, Id>, ops: seq<GraphOp>, k: nat)
    requires k < |ops| && AgreeAt(s, m, ops, k) && Fits(WrittenAll(s, m, ops[..k]), m, ops[k])
    ensures AgreeAt(s, m, ops, k + 1) <==> !Crosses(WrittenAll(s, m, ops[..k]), m, ops[k])
  {
    hide Fits, Crosses, Written, ApplyOp, ResolveOp, WrittenAll, ApplyOps, ResolveOpsToRealIds;
    CrossesIff(WrittenAll(s, m, ops[..k]), m, ops[k]);
    WrittenOneMore(s, m, ops, k);
    AppliedOneMore(s, m, ops, k);
  }

  /** The store holds what replay gives after every operation exactly when none crosses. */
  lemma ReplayAgreesIff(s: Snapshot, contains: seq<Edge>, uuids: nat -> Id, ops: seq<GraphOp>)
    requires Passes(s, contains, uuids, ops)
    ensures var m := Checks(contains, s.elements.Keys, uuids, ops).idMap;
            (forall j :: 0 <= j <= |ops| ==> AgreeAt(s, m, ops, j)) <==>
            forall j :: 0 <= j < |ops| ==> !Crosses(WrittenAll(s, m, ops[..j]), m, ops[j])
  {
    hide *;
    AgreesUntilCrossing(s, contains, uuids, ops, |ops|);
  }

  /** The first operation that crosses is where the store and replay part. */
  lemma FirstCrossingParts(s: Snapshot, contains: seq<Edge>, uuids: nat -> Id, ops: seq<GraphOp>, k: nat)
    requires Passes(s, contains, uuids, ops) && k < |ops|
    requires var m := Checks(contains, s.elements.Keys, uuids, ops).idMap;
             && (forall j :: 0 <= j < k ==> !Crosses(WrittenAll(s, m, ops[..j]), m, ops[j]))
             && Crosses(WrittenAll(s, m, ops[..k]), m, ops[k])
    ensures var m := Checks(contains, s.elements.Keys, uuids, ops).idMap;
            AgreeAt(s, m, ops, k) && !AgreeAt(s, m, ops, k + 1)
  {
    hide Passes, Checks, AgreeAt, Crosses, WrittenAll, Fits;
    var m := Checks(contains, s.elements.Keys, uuids, ops).idMap;
    AgreesUntilCrossing(s, contains, uuids, ops, k);
    EachFits(s, contains, uuids, ops, k);
    NextAgreesIff(s, m, ops, k);
  }

  // ----- What can be told from the batch -----

  predicate RefWaits(ops: seq<GraphOp>, k: nat, ref: Option<Id>)
    requires k < |ops|
  {
    ref.Some? && ref.value in TempsOf(ops) && ref.value !in TempsOf(ops[..k])
  }

  /** An operation on an id that the batch uses as a temporary one, or below one it has not used yet. */
  predicate Risky(ops: seq<GraphOp>, k: nat)
    requires k < |ops|
  {
    match ops[k]
    case Rename(id, _) => id in TempsOf(ops)
    case Create(_, _, _, parentId) => RefWaits(ops, k, parentId)
    case Reparent(id, newParentId) => id in TempsOf(ops) || RefWaits(ops, k, newParentId)
  }

  lemma RefsWereKnown(plan: Plan, existing: set<Id>, uuids: nat -> Id, index: nat, op: GraphOp)
    requires plan.errors == [] && Checked(plan, existing, uuids, index, op).errors == []
    ensures op.Create? ==> Known(existing, plan.idMap, RenamedRef(plan.idMap, op.parentId))
    ensures op.Reparent? ==> Known(existing, plan.idMap, RenamedRef(plan.idMap, op.newParentId))
  {
    hide Blank, Known, IsBelow, ParentEdge, RenamedRef;
  }

  /** What the check knew is there when it is written to, unless it waits for its element. */
  lemma KnownIsWritten(part: map<Id, Id>, m: map<Id, Id>, existing: set<Id>, ops: seq<GraphOp>, k: nat, ref: Option<Id>)
    requires k < |ops| && !RefWaits(ops, k, ref) && Known(existing, part, RenamedRef(part, ref)) && Extends(m, part)
    requires part.Keys == TempsOf(ops[..k]) && m.Keys == TempsOf(ops)
    ensures ref.Some? ==> Renamed(m, ref.value) in existing + RealIds(m, TempsOf(ops[..k]))
  {
    hide TempsOf;
    if ref.Some? {
      assert Renamed(m, ref.value) == Renamed(part, ref.value);
      if Renamed(part, ref.value) !in existing {
        var t :| t in part && part[t] == Renamed(part, ref.value);
        assert Renamed(m, t) == part[t];
      }
    }
  }

  lemma CrossingNeeds(s: Snapshot, m: map<Id, Id>, op: GraphOp)
    requires Crosses(s, m, op) && (op.Create? || op.id !in m)
    ensures op.Create? ==> op.parentId.Some? && Renamed(m, op.parentId.value) !in s.elements
    ensures op.Reparent? ==> op.newParentId.Some? && Renamed(m, op.newParentId.value) !in s.elements
    ensures !op.Rename?
  {
  }

  /** Only such an operation can cross. */
  lemma CrossingIsRisky(s: Snapshot, contains: seq<Edge>, uuids: nat -> Id, ops: seq<GraphOp>, k: nat)
    requires Passes(s, contains, uuids, ops) && k < |ops|
    requires var m := Checks(contains, s.elements.Keys, uuids, ops).idMap;
             Crosses(WrittenAll(s, m, ops[..k]), m, ops[k])
    ensures Risky(ops, k)
  {
    hide Closed, DistinctTemps, Checks, Checked, WrittenAll, SoundMap, TempsOf, RealIds, Crosses, Known, RefWaits,
         RenamedRef, Extends;
    var existing := s.elements.Keys;
    var plan, part := Checks(contains, existing, uuids, ops), Checks(contains, existing, uuids, ops[..k]);
    MapAt(s, contains, uuids, ops);
    AcceptedMap(contains, existing, uuids, ops, k);
    MapStays(contains, existing, uuids, ops, k);
    WrittenKeys(s, plan.idMap, ops, k);
    AcceptedSoFar(contains, existing, uuids, ops, k);
    AcceptedSoFar(contains, existing, uuids, ops, k + 1);
    ChecksOneMore(contains, existing, uuids, ops, k);
    RefsWereKnown(part, existing, uuids, k, ops[k]);
    if !Risky(ops, k) {
      CrossingNeeds(WrittenAll(s, plan.idMap, ops[..k]), plan.idMap, ops[k]);
      KnownIsWritten(part.idMap, plan.idMap, existing, ops, k, if ops[k].Create? then ops[k].parentId
                     else ops[k].newParentId);
    }
  }

  /** A real id used as a temporary one does no harm where the batch neither renames nor moves its element, and
      refers to it as a parent only once it stands for the new one. */
  lemma HarmlessReuse(s: Snapshot, contains: seq<Edge>, uuids: nat -> Id, ops: seq<GraphOp>, k: nat)
    requires Passes(s, contains, uuids, ops) && k <= |ops| && forall j :: 0 <= j < |ops| ==> !Risky(ops, j)
    ensures AgreeAt(s, Checks(contains, s.elements.Keys, uuids, ops).idMap, ops, k)
  {
    hide Passes, Checks, AgreeAt, Crosses, WrittenAll, Risky;
    var m := Checks(contains, s.elements.Keys, uuids, ops).idMap;
    forall j | 0 <= j < |ops|
      ensures !Crosses(WrittenAll(s, m, ops[..j]), m, ops[j])
    {
      if Crosses(WrittenAll(s, m, ops[..j]), m, ops[j]) {
        CrossingIsRisky(s, contains, uuids, ops, j);
      }
    }
    AgreesUntilCrossing(s, contains, uuids, ops, |ops|);
  }

  lemma WaitingBatchPasses(s: Snapshot, uuids: nat -> Id, first: GraphOp, second: GraphOp)
    requires "a" in s.elements && forall m, n :: uuids(m) == uuids(n) ==> m == n
    requires first == Create("t", Element, "part", Some("a")) && second == Create("a", Element, "new", None)
    ensures var plan := Checks([], s.elements.Keys, uuids, [first, second]);
            plan.errors == [] && "t" in plan.idMap && "a" in plan.idMap && plan.idMap["t"] == uuids(0) &&
              plan.idMap["a"] == uuids(1)
  {
    var ops := [first, second];
    NothingChecked([], s.elements.Keys, uuids);
    ChecksOneMore([], s.elements.Keys, uuids, ops, 0);
    ChecksOneMore([], s.elements.Keys, uuids, ops, 1);
    assert ops[..0] == [] && ops[..1] == [first] && ops[..2] == ops;
    assert "t"[0] != "a"[0];
  }

  /** A new element hung below an element whose id a later operation uses as a temporary one: no edge is
      written, and replay has one. */
  lemma ParentOfTwoMeaningsIsLost(uuids: nat -> Id)
    requires (forall m, n :: uuids(m) == uuids(n) ==> m == n) && forall n :: uuids(n) != "a"
    ensures var s := Snapshot(map["a" := ModelElement("a", Element, "old", true, Human)], {}, map[]);
            var ops := [Create("t", Element, "part", Some("a")), Create("a", Element, "new", None)];
            Passes(s, [], uuids, ops) && !AgreeAt(s, Checks([], s.elements.Keys, uuids, ops).idMap, ops, 1)
  {
    hide Checks, AgreeAt, WrittenAll, ApplyOps, ResolveOpsToRealIds;
    var s := Snapshot(map["a" := ModelElement("a", Element, "old", true, Human)], {}, map[]);
    var first, second := Create("t", Element, "part", Some("a")), Create("a", Element, "new", None);
    var ops := [first, second];
    WaitingBatchPasses(s, uuids, first, second);
    assert "t"[0] != "a"[0];
    var m := Checks([], s.elements.Keys, uuids, ops).idMap;
    assert ops[..0] == [];
    NothingWritten(s, m);
    assert Crosses(s, m, first);
    FirstCrossingParts(s, [], uuids, ops, 0);
  }
}
