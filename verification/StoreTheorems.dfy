/** What the store makes of a batch: checked as it will be written, written as it will be replayed, and
    complete for every edit a diff accepts. */
module StoreTheorems {
  import opened SysmlModel
  import opened TextSyntax
  import opened Containment
  import opened GraphOps
  import opened TextDiff
  import opened DiffAcceptance
  import opened DiffRealisation
  import opened DiffTheorems
  import opened GraphStore

  /** Each new element has a temporary id of its own, which no element of the model goes by. */
  ghost predicate OwnTemps(ops: seq<GraphOp>, existing: set<Id>) {
    && (forall i :: 0 <= i < |ops| && ops[i].Create? ==> ops[i].tempId !in existing)
    && (forall i, j :: 0 <= i < j < |ops| && ops[i].Create? && ops[j].Create? ==> ops[i].tempId != ops[j].tempId)
  }

  /** The ids the store mints are new, and it mints none twice. */
  ghost predicate FreshIds(uuids: nat -> Id, taken: set<Id>) {
    && (forall n :: uuids(n) !in taken)
    && (forall m, n :: uuids(m) == uuids(n) ==> m == n)
  }

  /** Real ids come from the store, in order, and no two temporary ids share one. */
  ghost predicate SoundMap(idMap: map<Id, Id>, uuids: nat -> Id, minted: nat) {
    && (forall t :: t in idMap ==> exists n :: 0 <= n < minted && idMap[t] == uuids(n))
    && (forall t, u :: t in idMap && u in idMap && idMap[t] == idMap[u] ==> t == u)
  }

  ghost predicate Extends(m: map<Id, Id>, part: map<Id, Id>) {
    forall t :: t in part ==> t in m && m[t] == part[t]
  }

  function TempsOf(ops: seq<GraphOp>): set<Id> {
    set op | op in ops && op.Create? :: op.tempId
  }

  ghost predicate ParentsAre(links: set<Edge>, parentOf: map<Id, Id>) {
    forall p, id :: Joined(links, p, id) <==> id in parentOf && parentOf[id] == p
  }

  /** The check's picture of the model is the model the writes will have made. */
  ghost predicate Agree(plan: Plan, existing: set<Id>, live: Snapshot) {
    && live.elements.Keys == existing + plan.idMap.Values
    && ContainsOf(live.edges) == plan.links
    && (forall e :: e in plan.links ==> e.source in live.elements && e.target in live.elements)
    && ParentsAre(plan.links, plan.parentOf)
  }

  // ----- One operation -----

  lemma AttachedParents(plan: Plan, parent: Option<Id>, id: Id)
    requires ParentsAre(plan.links, plan.parentOf) && id !in plan.parentOf
    ensures ParentsAre(Attached(plan, parent, id).links, Attached(plan, parent, id).parentOf)
  {
    var after := Attached(plan, parent, id);
    forall p, x
      ensures Joined(after.links, p, x) <==> x in after.parentOf && after.parentOf[x] == p
    {
      assert Joined(after.links, p, x) <==> Joined(plan.links, p, x) || (x == id && parent == Some(p));
    }
  }

  lemma DetachedParents(plan: Plan, id: Id)
    requires ParentsAre(plan.links, plan.parentOf) && forall e :: e in plan.links ==> e.kind == Contains
    ensures ParentsAre(Detached(plan, id).links, Detached(plan, id).parentOf) && id !in Detached(plan, id).parentOf
    ensures Detached(plan, id).links == WithoutParents(plan.links, id)
  {
    var after := Detached(plan, id);
    forall e | e in plan.links
      ensures e in after.links <==> e.target != id
    {
      assert e == Edge(e.source, e.target, Contains);
      assert Joined(plan.links, e.source, e.target);
    }
    forall p, x
      ensures Joined(after.links, p, x) <==> x in after.parentOf && after.parentOf[x] == p
    {
      assert Joined(after.links, p, x) <==> Joined(plan.links, p, x) && x != id;
    }
  }

  lemma ContainsOfUpdate(edges: set<Edge>, id: Id, more: set<Edge>)
    requires forall e :: e in more ==> e.kind == Contains
    ensures ContainsOf(edges + more) == ContainsOf(edges) + more
    ensures ContainsOf(WithoutParents(edges, id)) == WithoutParents(ContainsOf(edges), id)
  {
  }

  /** A reference the check knows is resolved the same way when the batch is written. */
  lemma RefsAgree(plan: Plan, existing: set<Id>, m: map<Id, Id>, ref: Option<Id>)
    requires Extends(m, plan.idMap) && m.Keys !! existing && Known(existing, plan.idMap, RenamedRef(plan.idMap, ref))
    requires ref.Some? ==> ref.value !in plan.idMap.Values
    ensures RenamedRef(m, ref) == RenamedRef(plan.idMap, ref)
  {
  }

  lemma KnownIsThere(plan: Plan, existing: set<Id>, live: Snapshot, ref: Option<Id>)
    requires Agree(plan, existing, live) && Known(existing, plan.idMap, ref)
    ensures ref.Some? ==> ref.value in live.elements
  {
  }

  lemma MergedIsParent(elements: map<Id, ModelElement>, ref: Option<Id>, id: Id)
    requires id in elements && (ref.Some? ==> ref.value in elements)
    ensures MergedEdge(elements, ref, id) == ParentEdge(ref, id)
    ensures forall e :: e in ParentEdge(ref, id) ==> e.kind == Contains && e.target == id && e.source in elements
  {
  }

  ghost predicate Minted(op: GraphOp, plan: Plan, existing: set<Id>, uuids: nat -> Id) {
    && uuids(plan.minted) !in existing && uuids(plan.minted) !in plan.idMap.Values
    && Mentions(op) !! plan.idMap.Values
    && (op.Create? ==> op.tempId !in plan.idMap)
  }

  /** An operation that passes is written as it was checked, and replayed as it was written. */
  lemma StepAgrees(plan: Plan, existing: set<Id>, uuids: nat -> Id, index: nat, op: GraphOp, m: map<Id, Id>,
                   live: Snapshot)
    requires Agree(plan, existing, live) && Minted(op, plan, existing, uuids)
    requires var after := Checked(plan, existing, uuids, index, op);
             after.errors == plan.errors && Extends(m, after.idMap)
    requires m.Keys !! existing
    ensures Agree(Checked(plan, existing, uuids, index, op), existing, Written(live, m, op))
    ensures Written(live, m, op) == ApplyOp(live, ResolveOp(m, op))
  {
    hide Agree, ParentsAre, Blank, ContainsOf, MergedEdge, ParentEdge, WithoutParents, Descends, Extends;
    match op {
      case Rename(id, name) =>
        RenamedAgrees(plan, existing, live, id, name);
      case Create(tempId, kind, name, parentId) =>
        CreatedAgrees(plan, existing, uuids, index, op, m, live);
      case Reparent(id, newParentId) =>
        MovedAgrees(plan, existing, uuids, index, op, m, live);
    }
  }

  lemma RenamedAgrees(plan: Plan, existing: set<Id>, live: Snapshot, id: Id, name: string)
    requires Agree(plan, existing, live) && id in existing
    ensures id in live.elements
    ensures Agree(plan, existing, live.(elements := live.elements[id := live.elements[id].(name := name)]))
  {
    hide ParentsAre, ContainsOf;
    assert live.elements.Keys + {id} == live.elements.Keys;
  }

  /** A new element below one that is there. */
  lemma GrownAgrees(plan: Plan, existing: set<Id>, live: Snapshot, t: Id, parent: Option<Id>, id: Id, e: ModelElement)
    requires Agree(plan, existing, live) && id !in live.elements && t !in plan.idMap
    requires parent.Some? ==> parent.value in live.elements
    ensures Agree(Attached(plan.(idMap := plan.idMap[t := id], minted := plan.minted + 1), parent, id), existing,
                  Snapshot(live.elements[id := e], live.edges + ParentEdge(parent, id), live.bodies))
  {
    hide ParentsAre, ContainsOf, ParentEdge;
    var elements := live.elements[id := e];
    MergedIsParent(elements, parent, id);
    ContainsOfUpdate(live.edges, id, ParentEdge(parent, id));
    ValuesGrow(plan.idMap, t, id);
    NoParentYet(plan, existing, live, id);
    AttachedParents(plan.(idMap := plan.idMap[t := id], minted := plan.minted + 1), parent, id);
  }

  lemma NextIdIsNew(plan: Plan, existing: set<Id>, uuids: nat -> Id, op: GraphOp, live: Snapshot)
    requires Agree(plan, existing, live) && Minted(op, plan, existing, uuids)
    ensures uuids(plan.minted) !in live.elements
  {
  }

  lemma CreatedAgrees(plan: Plan, existing: set<Id>, uuids: nat -> Id, index: nat, op: GraphOp, m: map<Id, Id>,
                      live: Snapshot)
    requires op.Create? && Agree(plan, existing, live) && Minted(op, plan, existing, uuids)
    requires var after := Checked(plan, existing, uuids, index, op);
             after.errors == plan.errors && Extends(m, after.idMap)
    requires m.Keys !! existing
    ensures Agree(Checked(plan, existing, uuids, index, op), existing, Written(live, m, op))
    ensures Written(live, m, op) == ApplyOp(live, ResolveOp(m, op))
  {
    hide Agree, MergedEdge, ParentEdge, Known, RenamedRef;
    var parent, id := RenamedRef(plan.idMap, op.parentId), uuids(plan.minted);
    assert m[op.tempId] == id;
    NextIdIsNew(plan, existing, uuids, op, live);
    RefsAgree(plan, existing, m, op.parentId);
    KnownIsThere(plan, existing, live, parent);
    var e := ModelElement(id, op.kind, op.name, true, Human);
    MergedIsParent(live.elements[id := e], parent, id);
    GrownAgrees(plan, existing, live, op.tempId, parent, id, e);
  }

  lemma ValuesGrow(m: map<Id, Id>, t: Id, id: Id)
    requires t !in m
    ensures m[t := id].Values == m.Values + {id}
  {
    assert m[t := id][t] == id;
    forall v | v in m.Values
      ensures v in m[t := id].Values
    {
      var u :| u in m && m[u] == v;
      assert m[t := id][u] == v;
    }
  }

  lemma NoParentYet(plan: Plan, existing: set<Id>, live: Snapshot, id: Id)
    requires Agree(plan, existing, live) && id !in live.elements
    ensures id !in plan.parentOf
  {
    var p := if id in plan.parentOf then plan.parentOf[id] else id;
    var e := Edge(p, id, Contains);
    assert e in plan.links ==> e.target in live.elements;
    assert !Joined(plan.links, p, id);
  }

  /** An element hung below another, or below none. */
  lemma HungAgrees(plan: Plan, existing: set<Id>, live: Snapshot, parent: Option<Id>, id: Id)
    requires Agree(plan, existing, live) && id in live.elements && (parent.Some? ==> parent.value in live.elements)
    ensures Agree(Attached(Detached(plan, id), parent, id), existing,
                  live.(edges := WithoutParents(live.edges, id) + ParentEdge(parent, id)))
  {
    hide ParentsAre, ParentEdge, WithoutParents;
    MergedIsParent(live.elements, parent, id);
    DetachedParents(plan, id);
    ContainsOfUpdate(live.edges, id, ParentEdge(parent, id));
    ContainsOfUpdate(WithoutParents(live.edges, id), id, ParentEdge(parent, id));
    AttachedParents(Detached(plan, id), parent, id);
    FewerEdges(plan.links, id);
  }

  lemma MovedAgrees(plan: Plan, existing: set<Id>, uuids: nat -> Id, index: nat, op: GraphOp, m: map<Id, Id>,
                    live: Snapshot)
    requires op.Reparent? && Agree(plan, existing, live) && Minted(op, plan, existing, uuids)
    requires var after := Checked(plan, existing, uuids, index, op);
             after.errors == plan.errors && Extends(m, after.idMap)
    requires m.Keys !! existing
    ensures Agree(Checked(plan, existing, uuids, index, op), existing, Written(live, m, op))
    ensures Written(live, m, op) == ApplyOp(live, ResolveOp(m, op))
  {
    hide ParentsAre, MergedEdge, ParentEdge, Known, Descends, WithoutParents, ContainsOf;
    var parent, id := RenamedRef(plan.idMap, op.newParentId), op.id;
    RefsAgree(plan, existing, m, op.newParentId);
    KnownIsThere(plan, existing, live, parent);
    MergedIsParent(live.elements, parent, id);
    HungAgrees(plan, existing, live, parent, id);
  }

  lemma FewerEdges(edges: set<Edge>, id: Id)
    ensures WithoutParents(edges, id) <= edges
  {
  }

  // ----- Batches -----

  ghost function Checks(contains: seq<Edge>, existing: set<Id>, uuids: nat -> Id, ops: seq<GraphOp>): Plan {
    CheckedAll(StartPlan(contains), existing, uuids, ops)
  }

  /** The rows the store reads show a hierarchy over stored elements. */
  ghost predicate Stored(s: Snapshot, contains: seq<Edge>) {
    && EdgeSet(contains) == ContainsOf(s.edges) && SingleParent(s.edges)
    && forall e :: e in s.edges && e.kind == Contains ==> e.source in s.elements && e.target in s.elements
  }

  /** A batch the store can tell apart: its temporary ids are its own and the minted ids are new. */
  ghost predicate Separate(ops: seq<GraphOp>, existing: set<Id>, uuids: nat -> Id) {
    && OwnTemps(ops, existing)
    && FreshIds(uuids, existing)
    && forall n, op :: op in ops ==> uuids(n) !in Mentions(op)
  }

  lemma ChecksOneMore(contains: seq<Edge>, existing: set<Id>, uuids: nat -> Id, ops: seq<GraphOp>, k: nat)
    requires k < |ops|
    ensures Checks(contains, existing, uuids, ops[..k + 1])
         == Checked(Checks(contains, existing, uuids, ops[..k]), existing, uuids, k, ops[k])
  {
    hide Checked;
    assert ops[..k + 1][..k] == ops[..k];
  }

  lemma StepMaps(plan: Plan, existing: set<Id>, uuids: nat -> Id, index: nat, op: GraphOp)
    requires SoundMap(plan.idMap, uuids, plan.minted) && forall m, n :: uuids(m) == uuids(n) ==> m == n
    requires op.Create? ==> op.tempId !in plan.idMap
    ensures var after := Checked(plan, existing, uuids, index, op);
            && SoundMap(after.idMap, uuids, after.minted)
            && after.idMap.Keys <= plan.idMap.Keys + TempsOf([op])
            && Extends(after.idMap, plan.idMap)
            && plan.errors <= after.errors
  {
    hide Blank, Known, Descends, ParentEdge, SoundMap;
    assert op in [op];
    if op.Create? {
      MintOne(plan.idMap, uuids, plan.minted, op.tempId);
    }
  }

  lemma MintOne(idMap: map<Id, Id>, uuids: nat -> Id, minted: nat, t: Id)
    requires SoundMap(idMap, uuids, minted) && forall m, n :: uuids(m) == uuids(n) ==> m == n
    ensures SoundMap(idMap[t := uuids(minted)], uuids, minted + 1)
  {
    var after := idMap[t := uuids(minted)];
    forall u | u in after
      ensures exists n :: 0 <= n < minted + 1 && after[u] == uuids(n)
    {
      if u != t {
        var n :| 0 <= n < minted && idMap[u] == uuids(n);
      } else {
        assert after[u] == uuids(minted);
      }
    }
  }

  lemma {:induction false} PrefixMaps(contains: seq<Edge>, existing: set<Id>, uuids: nat -> Id, ops: seq<GraphOp>,
                                      k: nat)
    requires Separate(ops, existing, uuids) && k <= |ops|
    ensures var plan := Checks(contains, existing, uuids, ops[..k]);
            SoundMap(plan.idMap, uuids, plan.minted) && plan.idMap.Keys <= TempsOf(ops[..k])
    decreases k
  {
    hide Checks, Checked, SoundMap, TempsOf, Extends;
    if k == 0 {
      NothingChecked(contains, existing, uuids);
      assert ops[..0] == [];
    } else {
      PrefixMaps(contains, existing, uuids, ops, k - 1);
      ChecksOneMore(contains, existing, uuids, ops, k - 1);
      LaterTemp(ops, existing, k - 1);
      StepMaps(Checks(contains, existing, uuids, ops[..k - 1]), existing, uuids, k - 1, ops[k - 1]);
      assert ops[..k] == ops[..k - 1] + [ops[k - 1]];
      TempsConcat(ops[..k - 1], [ops[k - 1]]);
    }
  }

  lemma NothingChecked(contains: seq<Edge>, existing: set<Id>, uuids: nat -> Id)
    ensures var plan := Checks(contains, existing, uuids, []);
            && plan == StartPlan(contains) && SoundMap(plan.idMap, uuids, plan.minted) && plan.idMap == map[]
  {
  }

  lemma TempsConcat(a: seq<GraphOp>, b: seq<GraphOp>)
    ensures TempsOf(a + b) == TempsOf(a) + TempsOf(b)
  {
  }

  lemma LaterTemp(ops: seq<GraphOp>, existing: set<Id>, k: nat)
    requires OwnTemps(ops, existing) && k < |ops|
    ensures ops[k].Create? ==> ops[k].tempId !in TempsOf(ops[..k])
    ensures forall t :: t in TempsOf(ops) ==> t !in existing
  {
  }

  lemma {:induction false} MapsExtend(contains: seq<Edge>, existing: set<Id>, uuids: nat -> Id, ops: seq<GraphOp>,
                                      j: nat, k: nat)
    requires Separate(ops, existing, uuids) && j <= k <= |ops|
    ensures Extends(Checks(contains, existing, uuids, ops[..k]).idMap,
                    Checks(contains, existing, uuids, ops[..j]).idMap)
    ensures Checks(contains, existing, uuids, ops[..j]).errors <= Checks(contains, existing, uuids, ops[..k]).errors
    decreases k
  {
    hide Checks, Checked, SoundMap, TempsOf;
    if j < k {
      MapsExtend(contains, existing, uuids, ops, j, k - 1);
      PrefixMaps(contains, existing, uuids, ops, k - 1);
      ChecksOneMore(contains, existing, uuids, ops, k - 1);
      LaterTemp(ops, existing, k - 1);
      StepMaps(Checks(contains, existing, uuids, ops[..k - 1]), existing, uuids, k - 1, ops[k - 1]);
    }
  }

  lemma StartAgrees(s: Snapshot, contains: seq<Edge>)
    requires Stored(s, contains)
    ensures Agree(StartPlan(contains), s.elements.Keys, s)
  {
    hide ParentMap;
    var plan := StartPlan(contains);
    forall p, id
      ensures Joined(plan.links, p, id) <==> id in plan.parentOf && plan.parentOf[id] == p
    {
      LookupIsTheParent(contains, id, p);
    }
  }

  lemma StepIsMinted(op: GraphOp, plan: Plan, existing: set<Id>, uuids: nat -> Id, ops: seq<GraphOp>)
    requires op in ops && Separate(ops, existing, uuids) && SoundMap(plan.idMap, uuids, plan.minted)
    requires op.Create? ==> op.tempId !in plan.idMap
    ensures Minted(op, plan, existing, uuids)
  {
    hide Mentions, OwnTemps;
    forall v | v in plan.idMap.Values
      ensures exists n :: 0 <= n < plan.minted && v == uuids(n)
    {
      var t :| t in plan.idMap && plan.idMap[t] == v;
    }
  }

  /** As long as nothing is refused, the model the check pictures is the one the writes make, and replaying
      the batch under real ids gives that model too. */
  lemma {:induction false} BatchAgrees(s: Snapshot, contains: seq<Edge>, uuids: nat -> Id, ops: seq<GraphOp>, k: nat,
                                       m: map<Id, Id>)
    requires Stored(s, contains) && Separate(ops, s.elements.Keys, uuids) && k <= |ops|
    requires var plan := Checks(contains, s.elements.Keys, uuids, ops[..k]); plan.errors == [] && Extends(m, plan.idMap)
    requires m.Keys !! s.elements.Keys
    ensures Agree(Checks(contains, s.elements.Keys, uuids, ops[..k]), s.elements.Keys, WrittenAll(s, m, ops[..k]))
    ensures WrittenAll(s, m, ops[..k]) == ApplyOps(s, ResolveOpsToRealIds(ops[..k], m))
    decreases k
  {
    hide Checks, Checked, SoundMap, TempsOf, Stored, Agree, Written, ApplyOp, ResolveOp;
    var existing := s.elements.Keys;
    if k == 0 {
      assert ops[..0] == [];
      NothingChecked(contains, existing, uuids);
      StartAgrees(s, contains);
    } else {
      var op := ops[k - 1];
      var plan := Checks(contains, existing, uuids, ops[..k - 1]);
      MapsExtend(contains, existing, uuids, ops, k - 1, k);
      BatchAgrees(s, contains, uuids, ops, k - 1, m);
      PrefixMaps(contains, existing, uuids, ops, k - 1);
      ChecksOneMore(contains, existing, uuids, ops, k - 1);
      LaterTemp(ops, existing, k - 1);
      StepIsMinted(op, plan, existing, uuids, ops);
      StepAgrees(plan, existing, uuids, k - 1, op, m, WrittenAll(s, m, ops[..k - 1]));
      WrittenOneMore(s, m, ops, k - 1);
      AppliedOneMore(s, m, ops, k - 1);
    }
  }

  lemma WrittenOneMore(s: Snapshot, m: map<Id, Id>, ops: seq<GraphOp>, k: nat)
    requires k < |ops|
    ensures WrittenAll(s, m, ops[..k + 1]) == Written(WrittenAll(s, m, ops[..k]), m, ops[k])
  {
    hide Written;
    assert ops[..k + 1][..k] == ops[..k];
  }

  lemma AppliedOneMore(s: Snapshot, m: map<Id, Id>, ops: seq<GraphOp>, k: nat)
    requires k < |ops|
    ensures ApplyOps(s, ResolveOpsToRealIds(ops[..k + 1], m))
         == ApplyOp(ApplyOps(s, ResolveOpsToRealIds(ops[..k], m)), ResolveOp(m, ops[k]))
    ensures ApplyOps(s, ops[..k + 1]) == ApplyOp(ApplyOps(s, ops[..k]), ops[k])
  {
    hide ApplyOp, ResolveOp;
    var op := ResolveOp(m, ops[k]);
    assert ResolveOpsToRealIds(ops[..k + 1], m) == ResolveOpsToRealIds(ops[..k], m) + [op];
    ApplyConcat(s, ResolveOpsToRealIds(ops[..k], m), [op]);
    assert ops[..k + 1] == ops[..k] + [ops[k]];
    ApplyConcat(s, ops[..k], [ops[k]]);
    OneOp(ApplyOps(s, ResolveOpsToRealIds(ops[..k], m)), op);
    OneOp(ApplyOps(s, ops[..k]), ops[k]);
  }

  lemma OneOp(s: Snapshot, op: GraphOp)
    ensures ApplyOps(s, [op]) == ApplyOp(s, op)
  {
    hide ApplyOp;
    assert [op][1..] == [];
    assert ApplyOps(ApplyOp(s, op), []) == ApplyOp(s, op);
  }

  // ----- Containment stays a forest -----

  /** Hanging an element below one that is neither it nor below it makes no cycle. */
  lemma AttachKeepsAcyclic(edges: set<Edge>, parent: Id, id: Id)
    requires Acyclic(edges) && !IsBelow(edges, id, parent)
    ensures Acyclic(edges + {Edge(parent, id, Contains)})
  {
    var rank := RankOf(edges);
    var raised: Id -> nat := LiftedRank(edges, rank, parent, rank(id) + 1);
    forall e | e in edges + {Edge(parent, id, Contains)} && e.kind == Contains
      ensures raised(e.source) > raised(e.target)
    {
      if e in edges {
        assert Joined(edges, e.source, e.target);
        if IsBelow(edges, e.target, parent) {
          DescendsThroughEdge(edges, e.source, e.target, parent);
        }
      }
    }
    RankedIsAcyclic(edges + {Edge(parent, id, Contains)}, raised);
  }

  ghost function LiftedRank(edges: set<Edge>, rank: Id -> nat, parent: Id, lift: nat): Id -> nat {
    (x: Id) => if IsBelow(edges, x, parent) then rank(x) + lift else rank(x)
  }

  lemma FewerIsAcyclic(edges: set<Edge>, fewer: set<Edge>)
    requires Acyclic(edges) && fewer <= edges
    ensures Acyclic(fewer)
  {
    RankedIsAcyclic(fewer, RankOf(edges));
  }

  lemma SameWalks(edges: set<Edge>, from: Id, to: Id)
    ensures IsBelow(ContainsOf(edges), from, to) <==> IsBelow(edges, from, to)
    ensures Acyclic(ContainsOf(edges)) <==> Acyclic(edges)
  {
    var links := ContainsOf(edges);
    forall walk
      ensures Descent(links, walk) <==> Descent(edges, walk)
    {
      assert forall i :: 0 <= i < |walk| - 1 ==>
             (Joined(links, walk[i], walk[i + 1]) <==> Joined(edges, walk[i], walk[i + 1]));
    }
    if Acyclic(edges) {
      FewerIsAcyclic(edges, links);
    }
    if Acyclic(links) {
      RankedIsAcyclic(edges, RankOf(links));
    }
  }

  /** A move makes a cycle exactly when it hangs an element below itself or below one under it. */
  lemma MoveIsAcyclic(edges: set<Edge>, id: Id, parent: Id)
    requires Acyclic(edges)
    ensures Acyclic(WithoutParents(edges, id) + {Edge(parent, id, Contains)}) <==> !IsBelow(edges, id, parent)
  {
    var rest := WithoutParents(edges, id);
    var moved := rest + {Edge(parent, id, Contains)};
    if !IsBelow(edges, id, parent) {
      AttachKeepsAcyclic(edges, parent, id);
      FewerIsAcyclic(edges + {Edge(parent, id, Contains)}, moved);
    } else {
      if id != parent {
        var walk :| Descent(edges, walk) && walk[0] == id && walk[|walk| - 1] == parent;
        WalkSurvives(edges, id, walk);
        assert Descends(rest, id, parent);
        MoreWalks(rest, moved, id, parent);
      }
      assert Joined(moved, parent, id);
      DescendsThroughEdge(moved, parent, id, parent);
      AcyclicMeansNoCycle(moved);
    }
  }

  lemma MoreWalks(fewer: set<Edge>, edges: set<Edge>, from: Id, to: Id)
    requires fewer <= edges && Descends(fewer, from, to)
    ensures Descends(edges, from, to)
  {
    var walk :| Descent(fewer, walk) && walk[0] == from && walk[|walk| - 1] == to;
    assert Descent(edges, walk);
  }

  /** No walk down from an element comes back to it, so none uses an edge into it. */
  lemma WalkSurvives(edges: set<Edge>, id: Id, walk: seq<Id>)
    requires Acyclic(edges) && Descent(edges, walk) && walk[0] == id
    ensures Descent(WithoutParents(edges, id), walk)
  {
    var rank := RankOf(edges);
    forall i | 0 <= i < |walk| - 1
      ensures Joined(WithoutParents(edges, id), walk[i], walk[i + 1])
    {
      var start := walk[..i + 2];
      forall j | 0 <= j < |start| - 1
        ensures Joined(edges, start[j], start[j + 1])
      {
        assert Joined(edges, walk[j], walk[j + 1]);
      }
      RankFallsAlongDescent(edges, rank, start);
      assert Joined(edges, walk[i], walk[i + 1]);
    }
  }

  /** Renaming ids apart neither makes nor breaks a cycle. */
  lemma RenamingKeepsCycles(m: map<Id, Id>, edges: set<Edge>, ids: set<Id>)
    requires InjectiveOn(m, ids) && forall e :: e in edges ==> e.source in ids && e.target in ids
    ensures Acyclic(RenameEdges(m, edges)) <==> Acyclic(edges)
  {
    hide Renamed;
    var renamed := RenameEdges(m, edges);
    if Acyclic(renamed) {
      var there := RankOf(renamed);
      var rank: Id -> nat := (id: Id) => there(Renamed(m, id));
      forall e | e in edges && e.kind == Contains
        ensures rank(e.source) > rank(e.target)
      {
        assert RenameEdge(m, e) in renamed;
      }
      RankedIsAcyclic(edges, rank);
    }
    if Acyclic(edges) {
      var rank := RankOf(edges);
      var there := RankBack(m, ids, rank);
      forall r | r in renamed && r.kind == Contains
        ensures there(r.source) > there(r.target)
      {
        var e :| e in edges && r == RenameEdge(m, e);
        RankBackIs(m, ids, rank, e.source);
        RankBackIs(m, ids, rank, e.target);
      }
      RankedIsAcyclic(renamed, there);
    }
  }

  ghost function RankBack(m: map<Id, Id>, ids: set<Id>, rank: Id -> nat): Id -> nat {
    (y: Id) => RankOfOriginal(m, ids, rank, y)
  }

  ghost function RankOfOriginal(m: map<Id, Id>, ids: set<Id>, rank: Id -> nat, y: Id): nat {
    if HasOriginal(m, ids, y) then rank(Original(m, ids, y)) else 0
  }

  ghost predicate HasOriginal(m: map<Id, Id>, ids: set<Id>, y: Id) {
    exists x :: x in ids && Renamed(m, x) == y
  }

  ghost function Original(m: map<Id, Id>, ids: set<Id>, y: Id): (x: Id)
    ensures HasOriginal(m, ids, y) ==> x in ids && Renamed(m, x) == y
  {
    if HasOriginal(m, ids, y) then
      var x :| x in ids && Renamed(m, x) == y;
      x
    else y
  }

  lemma RankBackIs(m: map<Id, Id>, ids: set<Id>, rank: Id -> nat, x: Id)
    requires InjectiveOn(m, ids) && x in ids
    ensures RankBack(m, ids, rank)(Renamed(m, x)) == rank(x)
  {
    assert Original(m, ids, Renamed(m, x)) == x;
  }

  // ----- Which batches are applied -----

  predicate BlankRename(op: GraphOp) {
    op.Rename? && Blank(op.name)
  }

  /** Renames and moves are of elements the model had before the batch. */
  predicate OldTarget(op: GraphOp, existing: set<Id>) {
    op.Create? || op.id in existing
  }

  /** Replaying one operation after the other, each finds what it refers to, creates nothing twice,
      and leaves containment without a cycle. */
  ghost predicate RunsThrough(s: Snapshot, ops: seq<GraphOp>) {
    forall k :: 0 <= k < |ops| ==> RunsAt(s, ops, k)
  }

  ghost predicate RunsAt(s: Snapshot, ops: seq<GraphOp>, k: nat)
    requires k < |ops|
  {
    && OldTarget(ops[k], s.elements.Keys)
    && Applicable(ops[k], ApplyOps(s, ops[..k]))
    && Acyclic(ApplyOps(s, ops[..k + 1]).edges)
  }

  lemma OriginalIsThere(m: map<Id, Id>, now: Snapshot, live: Snapshot, id: Id)
    requires IsRenaming(m, now, live) && InjectiveOn(m, SnapshotIds(now) + {id})
    ensures id in now.elements <==> Renamed(m, id) in live.elements
  {
  }

  lemma SoundMapIsInjective(m: map<Id, Id>, uuids: nat -> Id, minted: nat, ids: set<Id>)
    requires SoundMap(m, uuids, minted) && forall n :: uuids(n) !in ids
    ensures InjectiveOn(m, ids)
  {
  }

  /** A reference that can be resolved when the batch is written can be resolved when it is checked. */
  lemma RefWasKnown(plan: Plan, existing: set<Id>, uuids: nat -> Id, live: Snapshot, m: map<Id, Id>, minted: nat,
                    ref: Option<Id>)
    requires Agree(plan, existing, live) && Extends(m, plan.idMap) && SoundMap(m, uuids, minted)
    requires FreshIds(uuids, existing)
    requires ref.Some? ==> Renamed(m, ref.value) in live.elements
    ensures Known(existing, plan.idMap, RenamedRef(plan.idMap, ref))
    ensures RenamedRef(m, ref) == RenamedRef(plan.idMap, ref)
  {
    hide ParentsAre, ContainsOf;
    if ref.Some? && ref.value in m {
      var n :| 0 <= n < minted && m[ref.value] == uuids(n);
      var t :| t in plan.idMap && plan.idMap[t] == m[ref.value];
      assert m[t] == m[ref.value];
    }
  }

  /** Where a batch stands when its `k`th operation is checked. */
  ghost predicate Standing(plan: Plan, existing: set<Id>, uuids: nat -> Id, m: map<Id, Id>, minted: nat, now: Snapshot,
                           live: Snapshot, op: GraphOp) {
    && Agree(plan, existing, live) && Extends(m, plan.idMap) && SoundMap(m, uuids, minted)
    && FreshIds(uuids, existing) && m.Keys !! existing
    && IsRenaming(m, now, live) && InjectiveOn(m, SnapshotIds(now) + Mentions(op))
    && Minted(op, plan, existing, uuids)
    && Acyclic(live.edges)
  }

  lemma OldIdsStay(m: map<Id, Id>, existing: set<Id>, id: Id)
    requires m.Keys !! existing && id in existing
    ensures Renamed(m, id) == id
  {
  }

  lemma RefIsThere(plan: Plan, existing: set<Id>, uuids: nat -> Id, m: map<Id, Id>, minted: nat, now: Snapshot,
                   live: Snapshot, op: GraphOp, ref: Option<Id>)
    requires Standing(plan, existing, uuids, m, minted, now, live, op) && RefIds(ref) <= Mentions(op)
    ensures RefExists(ref, now) <==> Known(existing, plan.idMap, RenamedRef(plan.idMap, ref))
    ensures RefExists(ref, now) ==> RenamedRef(m, ref) == RenamedRef(plan.idMap, ref)
  {
    hide Agree, Extends, SoundMap, FreshIds, IsRenaming, InjectiveOn, SnapshotIds, Acyclic, Mentions, Known;
    if ref.Some? {
      assert ref.value in RefIds(ref);
      NarrowInjective(m, SnapshotIds(now) + Mentions(op), SnapshotIds(now) + {ref.value});
      OriginalIsThere(m, now, live, ref.value);
      if Renamed(m, ref.value) in live.elements {
        RefWasKnown(plan, existing, uuids, live, m, minted, ref);
      }
      if Known(existing, plan.idMap, RenamedRef(plan.idMap, ref)) {
        RefsAgree(plan, existing, m, ref);
        KnownIsThere(plan, existing, live, RenamedRef(plan.idMap, ref));
      }
    }
    NoRef(plan, existing, ref);
  }

  lemma NoRef(plan: Plan, existing: set<Id>, ref: Option<Id>)
    ensures ref.None? ==> Known(existing, plan.idMap, RenamedRef(plan.idMap, ref))
  {
  }

  lemma NarrowInjective(m: map<Id, Id>, ids: set<Id>, fewer: set<Id>)
    requires InjectiveOn(m, ids) && fewer <= ids
    ensures InjectiveOn(m, fewer)
  {
  }

  lemma TargetIsThere(plan: Plan, existing: set<Id>, uuids: nat -> Id, m: map<Id, Id>, minted: nat, now: Snapshot,
                      live: Snapshot, op: GraphOp)
    requires Standing(plan, existing, uuids, m, minted, now, live, op) && !op.Create?
    ensures op.id in existing ==> op.id in now.elements && Renamed(m, op.id) == op.id
  {
    hide Extends, SoundMap, FreshIds, IsRenaming, InjectiveOn, SnapshotIds, Acyclic, ParentsAre, ContainsOf;
    if op.id in existing {
      OldIdsStay(m, existing, op.id);
      NarrowInjective(m, SnapshotIds(now) + Mentions(op), SnapshotIds(now) + {op.id});
      OriginalIsThere(m, now, live, op.id);
    }
  }

  lemma EndsAreIds(s: Snapshot, ids: set<Id>)
    requires SnapshotIds(s) <= ids
    ensures forall e :: e in s.edges ==> e.source in ids && e.target in ids
  {
  }

  /** The model after an operation has a cycle exactly when the renamed one has. */
  lemma CyclesAgree(m: map<Id, Id>, now: Snapshot, live: Snapshot, op: GraphOp)
    requires IsRenaming(m, now, live) && InjectiveOn(m, SnapshotIds(now) + Mentions(op))
    ensures Acyclic(ApplyOp(now, op).edges) <==> Acyclic(ApplyOp(live, ResolveOp(m, op)).edges)
  {
    hide ApplyOp, ResolveOp, Acyclic, SnapshotIds, Mentions, InjectiveOn;
    ApplyOpCommutes(m, now, live, op);
    IdsGrow(now, op);
    EndsAreIds(ApplyOp(now, op), SnapshotIds(now) + Mentions(op));
    RenamingKeepsCycles(m, ApplyOp(now, op).edges, SnapshotIds(now) + Mentions(op));
  }

  lemma RenamePasses(plan: Plan, existing: set<Id>, uuids: nat -> Id, index: nat, m: map<Id, Id>, minted: nat,
                     now: Snapshot, live: Snapshot, op: GraphOp)
    requires Standing(plan, existing, uuids, m, minted, now, live, op) && op.Rename?
    ensures Checked(plan, existing, uuids, index, op).errors == plan.errors <==>
            && !BlankRename(op) && OldTarget(op, existing) && Applicable(op, now)
            && Acyclic(ApplyOp(live, ResolveOp(m, op)).edges)
  {
    hide Agree, Extends, SoundMap, FreshIds, IsRenaming, InjectiveOn, SnapshotIds, Acyclic, Mentions, Blank;
    TargetIsThere(plan, existing, uuids, m, minted, now, live, op);
  }

  lemma MovePasses(plan: Plan, existing: set<Id>, uuids: nat -> Id, index: nat, m: map<Id, Id>, minted: nat,
                   now: Snapshot, live: Snapshot, op: GraphOp)
    requires Standing(plan, existing, uuids, m, minted, now, live, op) && op.Reparent?
    ensures Checked(plan, existing, uuids, index, op).errors == plan.errors <==>
            && OldTarget(op, existing) && Applicable(op, now)
            && Acyclic(ApplyOp(live, ResolveOp(m, op)).edges)
  {
    hide Agree, Extends, SoundMap, FreshIds, IsRenaming, InjectiveOn, SnapshotIds, Acyclic, Known, Descends,
         WithoutParents, IsBelow;
    TargetIsThere(plan, existing, uuids, m, minted, now, live, op);
    RefIsThere(plan, existing, uuids, m, minted, now, live, op, op.newParentId);
    var parent := RenamedRef(plan.idMap, op.newParentId);
    LinksOf(plan, existing, live);
    if parent.Some? {
      MoveIsAcyclic(live.edges, op.id, parent.value);
      SameWalks(live.edges, op.id, parent.value);
      assert ParentEdge(parent, op.id) == {Edge(parent.value, op.id, Contains)};
    } else {
      assert ParentEdge(parent, op.id) == {};
      assert WithoutParents(live.edges, op.id) + {} == WithoutParents(live.edges, op.id);
      FewerEdges(live.edges, op.id);
      FewerIsAcyclic(live.edges, WithoutParents(live.edges, op.id));
    }
  }

  lemma LinksOf(plan: Plan, existing: set<Id>, live: Snapshot)
    requires Agree(plan, existing, live)
    ensures plan.links == ContainsOf(live.edges)
  {
  }

  lemma CreatePasses(plan: Plan, existing: set<Id>, uuids: nat -> Id, index: nat, m: map<Id, Id>, minted: nat,
                     now: Snapshot, live: Snapshot, op: GraphOp)
    requires Standing(plan, existing, uuids, m, minted, now, live, op) && op.Create?
    requires var after := Checked(plan, existing, uuids, index, op);
             after.errors == plan.errors ==> Extends(m, after.idMap)
    ensures Checked(plan, existing, uuids, index, op).errors == plan.errors <==> RefExists(op.parentId, now)
    ensures Checked(plan, existing, uuids, index, op).errors == plan.errors ==>
            Applicable(op, now) && Acyclic(ApplyOp(live, ResolveOp(m, op)).edges)
  {
    hide Extends, SoundMap, FreshIds, IsRenaming, InjectiveOn, SnapshotIds, Acyclic, Known, Descends, ParentsAre,
         ContainsOf, RefExists;
    RefIsThere(plan, existing, uuids, m, minted, now, live, op, op.parentId);
    var after := Checked(plan, existing, uuids, index, op);
    if after.errors == plan.errors {
      var id, parent := uuids(plan.minted), RenamedRef(plan.idMap, op.parentId);
      MappedIs(m, after.idMap, op.tempId);
      NarrowInjective(m, SnapshotIds(now) + Mentions(op), SnapshotIds(now) + {op.tempId});
      OriginalIsThere(m, now, live, op.tempId);
      KnownIsThere(plan, existing, live, parent);
      if parent.Some? {
        NothingBelow(plan, existing, live, id);
        SameWalks(live.edges, id, parent.value);
        AttachKeepsAcyclic(live.edges, parent.value, id);
        assert ParentEdge(parent, id) == {Edge(parent.value, id, Contains)};
      } else {
        assert ParentEdge(parent, id) == {};
        assert live.edges + {} == live.edges;
      }
    }
  }

  lemma MappedIs(m: map<Id, Id>, part: map<Id, Id>, t: Id)
    requires Extends(m, part) && t in part
    ensures t in m && m[t] == part[t] && Renamed(m, t) == part[t]
  {
  }

  lemma NothingBelow(plan: Plan, existing: set<Id>, live: Snapshot, id: Id)
    requires Agree(plan, existing, live) && id !in live.elements
    ensures forall x :: x in live.elements ==> !IsBelow(ContainsOf(live.edges), id, x)
  {
    forall walk | Descent(plan.links, walk)
      ensures walk[0] != id
    {
      assert Joined(plan.links, walk[0], walk[0 + 1]);
    }
  }

  lemma OpPasses(plan: Plan, existing: set<Id>, uuids: nat -> Id, index: nat, m: map<Id, Id>, minted: nat,
                 now: Snapshot, live: Snapshot, op: GraphOp)
    requires Standing(plan, existing, uuids, m, minted, now, live, op)
    requires var after := Checked(plan, existing, uuids, index, op);
             after.errors == plan.errors ==> Extends(m, after.idMap)
    ensures Checked(plan, existing, uuids, index, op).errors == plan.errors <==>
            !BlankRename(op) && OldTarget(op, existing) && Applicable(op, now) && Acyclic(ApplyOp(now, op).edges)
    ensures Acyclic(ApplyOp(now, op).edges) <==> Acyclic(ApplyOp(live, ResolveOp(m, op)).edges)
  {
    CyclesMatch(plan, existing, uuids, m, minted, now, live, op);
    hide Standing, Checked, Extends, Acyclic, ApplyOp, ResolveOp, RefExists;
    match op {
      case Rename(_, _) => RenamePasses(plan, existing, uuids, index, m, minted, now, live, op);
      case Create(_, _, _, _) => CreatePasses(plan, existing, uuids, index, m, minted, now, live, op);
      case Reparent(_, _) => MovePasses(plan, existing, uuids, index, m, minted, now, live, op);
    }
  }

  lemma CyclesMatch(plan: Plan, existing: set<Id>, uuids: nat -> Id, m: map<Id, Id>, minted: nat, now: Snapshot,
                    live: Snapshot, op: GraphOp)
    requires Standing(plan, existing, uuids, m, minted, now, live, op)
    ensures Acyclic(ApplyOp(now, op).edges) <==> Acyclic(ApplyOp(live, ResolveOp(m, op)).edges)
  {
    hide *;
    StandingRenames(plan, existing, uuids, m, minted, now, live, op);
    CyclesAgree(m, now, live, op);
  }

  lemma StandingRenames(plan: Plan, existing: set<Id>, uuids: nat -> Id, m: map<Id, Id>, minted: nat, now: Snapshot,
                        live: Snapshot, op: GraphOp)
    requires Standing(plan, existing, uuids, m, minted, now, live, op)
    ensures IsRenaming(m, now, live) && InjectiveOn(m, SnapshotIds(now) + Mentions(op))
  {
  }

  /** A forest in the store, and a batch whose temporary ids and minted ids clash with nothing. */
  ghost predicate Ready(s: Snapshot, contains: seq<Edge>, uuids: nat -> Id, ops: seq<GraphOp>) {
    && Stored(s, contains) && Acyclic(s.edges)
    && (forall id :: id in s.elements ==> s.elements[id].id == id)
    && Separate(ops, SnapshotIds(s), uuids)
  }

  lemma StillSeparate(s: Snapshot, uuids: nat -> Id, ops: seq<GraphOp>)
    requires Separate(ops, SnapshotIds(s), uuids)
    ensures Separate(ops, s.elements.Keys, uuids)
  {
    assert s.elements.Keys <= SnapshotIds(s);
  }

  lemma {:induction false} UuidsUnmentioned(uuids: nat -> Id, ops: seq<GraphOp>)
    requires forall n, op :: op in ops ==> uuids(n) !in Mentions(op)
    ensures forall n :: uuids(n) !in AllMentions(ops)
    decreases |ops|
  {
    hide Mentions;
    if ops != [] {
      UuidsUnmentioned(uuids, ops[1..]);
    }
  }

  lemma {:induction false} AllIdsGrow(s: Snapshot, ops: seq<GraphOp>)
    ensures SnapshotIds(ApplyOps(s, ops)) <= SnapshotIds(s) + AllMentions(ops)
    decreases |ops|
  {
    hide SnapshotIds, Mentions, ApplyOp;
    if ops != [] {
      IdsGrow(s, ops[0]);
      AllIdsGrow(ApplyOp(s, ops[0]), ops[1..]);
    }
  }

  lemma SameUnderNewIds(m: map<Id, Id>, s: Snapshot)
    requires m.Keys !! SnapshotIds(s) && forall id :: id in s.elements ==> s.elements[id].id == id
    ensures IsRenaming(m, s, s)
  {
    hide Renamed, RenameEdges;
    var ids := SnapshotIds(s);
    forall id | id in ids
      ensures Renamed(m, id) == id
    {
      NotRenamed(m, id);
    }
    EndsAreIds(s, ids);
    SameEdges(m, s.edges);
    assert s.elements.Keys <= ids && s.bodies.Keys <= ids;
  }

  lemma NotRenamed(m: map<Id, Id>, id: Id)
    requires id !in m
    ensures Renamed(m, id) == id
  {
  }

  lemma SameEdges(m: map<Id, Id>, edges: set<Edge>)
    requires forall e :: e in edges ==> Renamed(m, e.source) == e.source && Renamed(m, e.target) == e.target
    ensures RenameEdges(m, edges) == edges
  {
    hide Renamed;
    forall e | e in edges
      ensures RenameEdge(m, e) == e
    {
    }
    forall e | e in edges
      ensures e in RenameEdges(m, edges)
    {
      assert e == RenameEdge(m, e);
    }
  }

  lemma MapAvoidsModel(s: Snapshot, contains: seq<Edge>, uuids: nat -> Id, ops: seq<GraphOp>)
    requires Separate(ops, SnapshotIds(s), uuids)
    ensures var plan := Checks(contains, s.elements.Keys, uuids, ops);
            SoundMap(plan.idMap, uuids, plan.minted) && plan.idMap.Keys !! SnapshotIds(s)
  {
    hide SoundMap, SnapshotIds, Checks;
    StillSeparate(s, uuids, ops);
    PrefixMaps(contains, s.elements.Keys, uuids, ops, |ops|);
    assert ops[..|ops|] == ops;
    forall t | t in TempsOf(ops)
      ensures t !in SnapshotIds(s)
    {
    }
  }

  lemma PrefixIsSeparate(ops: seq<GraphOp>, existing: set<Id>, uuids: nat -> Id, k: nat)
    requires Separate(ops, existing, uuids) && k <= |ops|
    ensures forall n, op :: op in ops[..k] ==> uuids(n) !in Mentions(op)
  {
    assert forall op :: op in ops[..k] ==> op in ops;
  }

  /** The replay under temporary ids and the model in the store differ in the new ids only. */
  lemma RenamedAt(s: Snapshot, contains: seq<Edge>, uuids: nat -> Id, ops: seq<GraphOp>, k: nat)
    requires Ready(s, contains, uuids, ops) && k <= |ops|
    ensures var m := Checks(contains, s.elements.Keys, uuids, ops).idMap;
            var now := ApplyOps(s, ops[..k]);
            && IsRenaming(m, now, ApplyOps(s, ResolveOpsToRealIds(ops[..k], m)))
            && (forall n :: uuids(n) !in SnapshotIds(now))
            && InjectiveOn(m, SnapshotIds(now))
            && (k < |ops| ==> InjectiveOn(m, SnapshotIds(now) + Mentions(ops[k])))
  {
    hide Checks, SoundMap, SnapshotIds, Mentions, AllMentions, ApplyOps, ResolveOpsToRealIds, IsRenaming, InjectiveOn,
         Stored, Acyclic, OwnTemps;
    var plan := Checks(contains, s.elements.Keys, uuids, ops);
    var m, now := plan.idMap, ApplyOps(s, ops[..k]);
    MapAvoidsModel(s, contains, uuids, ops);
    PrefixIsSeparate(ops, SnapshotIds(s), uuids, k);
    UuidsUnmentioned(uuids, ops[..k]);
    AllIdsGrow(s, ops[..k]);
    var ids := SnapshotIds(s) + AllMentions(ops[..k]);
    SoundMapIsInjective(m, uuids, plan.minted, ids);
    SameUnderNewIds(m, s);
    ApplyOpsCommute(m, s, s, ops[..k]);
    SoundMapIsInjective(m, uuids, plan.minted, SnapshotIds(now));
    if k < |ops| {
      assert ops[k] in ops;
      SoundMapIsInjective(m, uuids, plan.minted, SnapshotIds(now) + Mentions(ops[k]));
    }
  }

  lemma StandingAt(s: Snapshot, contains: seq<Edge>, uuids: nat -> Id, ops: seq<GraphOp>, k: nat)
    requires Ready(s, contains, uuids, ops) && k < |ops|
    requires Checks(contains, s.elements.Keys, uuids, ops[..k]).errors == []
    requires Acyclic(WrittenAll(s, Checks(contains, s.elements.Keys, uuids, ops).idMap, ops[..k]).edges)
    ensures var plan := Checks(contains, s.elements.Keys, uuids, ops);
            var live := WrittenAll(s, plan.idMap, ops[..k]);
            && Standing(Checks(contains, s.elements.Keys, uuids, ops[..k]), s.elements.Keys, uuids, plan.idMap,
                        plan.minted, ApplyOps(s, ops[..k]), live, ops[k])
            && live == ApplyOps(s, ResolveOpsToRealIds(ops[..k], plan.idMap))
  {
    hide Checks, SoundMap, SnapshotIds, Mentions, AllMentions, ApplyOps, ResolveOpsToRealIds, IsRenaming, InjectiveOn,
         Stored, Acyclic, OwnTemps, WrittenAll, Agree, Extends, TempsOf, Minted;
    var existing := s.elements.Keys;
    var plan, here := Checks(contains, existing, uuids, ops), Checks(contains, existing, uuids, ops[..k]);
    StillSeparate(s, uuids, ops);
    MapAvoidsModel(s, contains, uuids, ops);
    KeysAreIds(s);
    assert ops[..|ops|] == ops;
    MapsExtend(contains, existing, uuids, ops, k, |ops|);
    BatchAgrees(s, contains, uuids, ops, k, plan.idMap);
    RenamedAt(s, contains, uuids, ops, k);
    PrefixMaps(contains, existing, uuids, ops, k);
    LaterTemp(ops, existing, k);
    StepIsMinted(ops[k], here, existing, uuids, ops);
  }

  lemma KeysAreIds(s: Snapshot)
    ensures s.elements.Keys <= SnapshotIds(s)
  {
  }

  /** A prefix of a batch passes exactly when it runs through and gives no element a blank name. */
  lemma {:induction false} PrefixPasses(s: Snapshot, contains: seq<Edge>, uuids: nat -> Id, ops: seq<GraphOp>, k: nat)
    requires Ready(s, contains, uuids, ops) && k <= |ops|
    ensures Checks(contains, s.elements.Keys, uuids, ops[..k]).errors == [] <==>
            forall j :: 0 <= j < k ==> RunsAt(s, ops, j) && !BlankRename(ops[j])
    ensures Checks(contains, s.elements.Keys, uuids, ops[..k]).errors == [] ==>
            Acyclic(WrittenAll(s, Checks(contains, s.elements.Keys, uuids, ops).idMap, ops[..k]).edges)
    decreases k
  {
    hide Checks, Checked, ApplyOps, ResolveOpsToRealIds, Stored, Acyclic, Separate, WrittenAll, Written, Extends,
         Standing, Applicable, BlankRename, OldTarget, ApplyOp, ResolveOp;
    var existing := s.elements.Keys;
    if k == 0 {
      assert ops[..0] == [];
      NothingChecked(contains, existing, uuids);
      NothingWritten(s, Checks(contains, existing, uuids, ops).idMap);
    } else {
      var plan, before := Checks(contains, existing, uuids, ops), Checks(contains, existing, uuids, ops[..k - 1]);
      StillSeparate(s, uuids, ops);
      MapsExtend(contains, existing, uuids, ops, k - 1, k);
      PrefixPasses(s, contains, uuids, ops, k - 1);
      ChecksOneMore(contains, existing, uuids, ops, k - 1);
      if before.errors == [] {
        StandingAt(s, contains, uuids, ops, k - 1);
        assert ops[..|ops|] == ops;
        MapsExtend(contains, existing, uuids, ops, k, |ops|);
        OpPasses(before, existing, uuids, k - 1, plan.idMap, plan.minted, ApplyOps(s, ops[..k - 1]),
                 WrittenAll(s, plan.idMap, ops[..k - 1]), ops[k - 1]);
        AppliedOneMore(s, plan.idMap, ops, k - 1);
        assert RunsAt(s, ops, k - 1) <==>
          OldTarget(ops[k - 1], existing) && Applicable(ops[k - 1], ApplyOps(s, ops[..k - 1])) &&
            Acyclic(ApplyOps(s, ops[..k]).edges);
        if Checks(contains, existing, uuids, ops[..k]).errors == [] {
          MapAvoidsModel(s, contains, uuids, ops);
          KeysAreIds(s);
          BatchAgrees(s, contains, uuids, ops, k, plan.idMap);
        }
      }
    }
  }

  lemma NothingWritten(s: Snapshot, m: map<Id, Id>)
    ensures WrittenAll(s, m, []) == s
  {
  }

  /** The store applies a batch exactly when, run in order, every operation finds what it refers to, none
      creates what is there, containment never has a cycle, and no element is renamed to nothing. */
  lemma BatchIsAppliedIff(s: Snapshot, contains: seq<Edge>, uuids: nat -> Id, ops: seq<GraphOp>)
    requires Ready(s, contains, uuids, ops)
    ensures Checks(contains, s.elements.Keys, uuids, ops).errors == [] <==>
            RunsThrough(s, ops) && forall op :: op in ops ==> !BlankRename(op)
  {
    hide Checks, Ready, RunsAt, BlankRename;
    PrefixPasses(s, contains, uuids, ops, |ops|);
    assert ops[..|ops|] == ops;
  }

  /** What the store holds after a batch is what replaying the recorded batch gives, and what the client's
      own batch gives but for the new elements' ids; containment is still a forest. */
  lemma AppliedBatchIsReplayed(s: Snapshot, contains: seq<Edge>, uuids: nat -> Id, ops: seq<GraphOp>)
    requires Ready(s, contains, uuids, ops) && Checks(contains, s.elements.Keys, uuids, ops).errors == []
    ensures var m := Checks(contains, s.elements.Keys, uuids, ops).idMap;
            var live := WrittenAll(s, m, ops);
            && live == ApplyOps(s, ResolveOpsToRealIds(ops, m))
            && IsRenaming(m, ApplyOps(s, ops), live)
            && Acyclic(live.edges) && SingleParent(live.edges)
            && live.elements.Keys == s.elements.Keys + m.Values
  {
    hide Checks, Stored, Acyclic, SingleParent, OwnTemps, WrittenAll, ApplyOps, ResolveOpsToRealIds, IsRenaming,
         SnapshotIds, Mentions, ParentsAre, ContainsOf;
    var existing := s.elements.Keys;
    var plan := Checks(contains, existing, uuids, ops);
    assert ops[..|ops|] == ops;
    StillSeparate(s, uuids, ops);
    MapAvoidsModel(s, contains, uuids, ops);
    KeysAreIds(s);
    PrefixPasses(s, contains, uuids, ops, |ops|);
    BatchAgrees(s, contains, uuids, ops, |ops|, plan.idMap);
    RenamedAt(s, contains, uuids, ops, |ops|);
    OneParentEach(plan, WrittenAll(s, plan.idMap, ops).edges);
  }

  lemma OneParentEach(plan: Plan, edges: set<Edge>)
    requires ParentsAre(plan.links, plan.parentOf) && ContainsOf(edges) == plan.links
    ensures SingleParent(edges)
  {
    forall e, f | e in edges && f in edges && e.kind == Contains && f.kind == Contains && e.target == f.target
      ensures e.source == f.source
    {
      assert e in plan.links && f in plan.links;
      assert Joined(plan.links, e.source, e.target) && Joined(plan.links, f.source, f.target);
    }
  }
}
