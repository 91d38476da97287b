/** Graph operations, the snapshot they act on, and how replay applies them. */
module GraphOps {
  import opened SysmlModel

  datatype GraphOp =
    | Rename(id: Id, name: string)
    | Create(tempId: Id, kind: NodeKind, name: string, parentId: Option<Id>)
    | Reparent(id: Id, newParentId: Option<Id>)

  /** An element's rationale and properties; a property's JSON value is kept as its text. */
  datatype Body = Body(rationale: Option<string>, properties: map<string, string>)

  /** The state of a project: what is stored, with the order of the rows forgotten. */
  datatype Snapshot = Snapshot(elements: map<Id, ModelElement>, edges: set<Edge>, bodies: map<Id, Body>)

  function WithoutParents(edges: set<Edge>, id: Id): set<Edge> {
    set e | e in edges && !(e.target == id && e.kind == Contains)
  }

  function ParentEdge(parent: Option<Id>, id: Id): set<Edge> {
    if parent.Some? then {Edge(parent.value, id, Contains)} else {}
  }

  /** One operation replayed; a `Create`'s id is taken as the element's real one. */
  function ApplyOp(s: Snapshot, op: GraphOp): Snapshot {
    match op
    case Rename(id, name) =>
      if id in s.elements then s.(elements := s.elements[id := s.elements[id].(name := name)]) else s
    case Create(id, kind, name, parent) =>
      s.(elements := if id in s.elements then s.elements
         else s.elements[id := ModelElement(id, kind, name, true, Human)],
         edges := s.edges + ParentEdge(parent, id))
    case Reparent(id, parent) =>
      s.(edges := WithoutParents(s.edges, id) + ParentEdge(parent, id))
  }

  function ApplyOps(s: Snapshot, ops: seq<GraphOp>): Snapshot
    decreases |ops|
  {
    if ops == [] then s else ApplyOps(ApplyOp(s, ops[0]), ops[1..])
  }

  lemma {:induction false} ApplyConcat(s: Snapshot, a: seq<GraphOp>, b: seq<GraphOp>)
    ensures ApplyOps(s, a + b) == ApplyOps(ApplyOps(s, a), b)
    decreases |a|
  {
    if a == [] {
      assert [] + b == b;
    } else {
      assert (a + b)[0] == a[0] && (a + b)[1..] == a[1..] + b;
      ApplyConcat(ApplyOp(s, a[0]), a[1..], b);
    }
  }

  // ----- Renaming ids -----

  function Renamed(idMap: map<Id, Id>, id: Id): Id {
    if id in idMap then idMap[id] else id
  }

  function RenamedRef(idMap: map<Id, Id>, ref: Option<Id>): Option<Id> {
    if ref.Some? then Some(Renamed(idMap, ref.value)) else None
  }

  function ResolveOp(idMap: map<Id, Id>, op: GraphOp): GraphOp {
    match op
    case Rename(id, name) => Rename(Renamed(idMap, id), name)
    case Create(tempId, kind, name, parent) => Create(Renamed(idMap, tempId), kind, name, RenamedRef(idMap, parent))
    case Reparent(id, parent) => Reparent(Renamed(idMap, id), RenamedRef(idMap, parent))
  }

  function ResolveOpsToRealIds(ops: seq<GraphOp>, idMap: map<Id, Id>): (r: seq<GraphOp>)
    ensures |r| == |ops|
  {
    seq(|ops|, i requires 0 <= i < |ops| => ResolveOp(idMap, ops[i]))
  }

  /** The ids an operation mentions. */
  function Mentions(op: GraphOp): set<Id> {
    match op
    case Rename(id, _) => {id}
    case Create(tempId, _, _, parent) => {tempId} + RefIds(parent)
    case Reparent(id, parent) => {id} + RefIds(parent)
  }

  function RefIds(ref: Option<Id>): set<Id> {
    if ref.Some? then {ref.value} else {}
  }

  function SnapshotIds(s: Snapshot): set<Id> {
    s.elements.Keys + (set e | e in s.edges :: e.source) + (set e | e in s.edges :: e.target) + s.bodies.Keys
  }

  /** No two of these ids are renamed to the same one. */
  ghost predicate InjectiveOn(idMap: map<Id, Id>, ids: set<Id>) {
    forall a, b :: a in ids && b in ids && Renamed(idMap, a) == Renamed(idMap, b) ==> a == b
  }

  function RenameEdge(idMap: map<Id, Id>, e: Edge): Edge {
    Edge(Renamed(idMap, e.source), Renamed(idMap, e.target), e.kind)
  }

  function RenameEdges(idMap: map<Id, Id>, edges: set<Edge>): set<Edge> {
    set e | e in edges :: RenameEdge(idMap, e)
  }

  ghost predicate ElementsRenamed(idMap: map<Id, Id>, a: map<Id, ModelElement>, b: map<Id, ModelElement>) {
    && (forall id :: id in a ==> a[id].id == id)
    && (forall id :: id in a ==> Renamed(idMap, id) in b && b[Renamed(idMap, id)] == a[id].(id := Renamed(idMap, id)))
    && (forall r :: r in b ==> exists id :: id in a && Renamed(idMap, id) == r)
  }

  ghost predicate BodiesRenamed(idMap: map<Id, Id>, a: map<Id, Body>, b: map<Id, Body>) {
    && (forall id :: id in a ==> Renamed(idMap, id) in b && b[Renamed(idMap, id)] == a[id])
    && (forall r :: r in b ==> exists id :: id in a && Renamed(idMap, id) == r)
  }

  /** `r` is `s` with every id renamed. */
  ghost predicate IsRenaming(idMap: map<Id, Id>, s: Snapshot, r: Snapshot) {
    && ElementsRenamed(idMap, s.elements, r.elements)
    && r.edges == RenameEdges(idMap, s.edges)
    && BodiesRenamed(idMap, s.bodies, r.bodies)
  }

  lemma RenameParentEdge(idMap: map<Id, Id>, parent: Option<Id>, id: Id)
    ensures RenameEdges(idMap, ParentEdge(parent, id)) == ParentEdge(RenamedRef(idMap, parent), Renamed(idMap, id))
  {
    if parent.Some? {
      var e := Edge(parent.value, id, Contains);
      assert ParentEdge(parent, id) == {e};
      assert RenameEdge(idMap, e) in RenameEdges(idMap, {e});
    }
  }

  lemma RenameUnion(idMap: map<Id, Id>, a: set<Edge>, b: set<Edge>)
    ensures RenameEdges(idMap, a + b) == RenameEdges(idMap, a) + RenameEdges(idMap, b)
  {
  }

  lemma RenameWithoutParents(idMap: map<Id, Id>, edges: set<Edge>, id: Id, ids: set<Id>)
    requires InjectiveOn(idMap, ids) && id in ids && forall e :: e in edges ==> e.target in ids
    ensures RenameEdges(idMap, WithoutParents(edges, id)) ==
            WithoutParents(RenameEdges(idMap, edges), Renamed(idMap, id))
  {
    forall r | r in WithoutParents(RenameEdges(idMap, edges), Renamed(idMap, id))
      ensures r in RenameEdges(idMap, WithoutParents(edges, id))
    {
      var e :| e in edges && r == RenameEdge(idMap, e);
      assert e in WithoutParents(edges, id);
    }
  }

  lemma RenamedKey(idMap: map<Id, Id>, a: map<Id, ModelElement>, b: map<Id, ModelElement>, id: Id)
    requires InjectiveOn(idMap, a.Keys + {id}) && ElementsRenamed(idMap, a, b)
    ensures id in a <==> Renamed(idMap, id) in b
  {
  }

  lemma RenamedUpdate(idMap: map<Id, Id>, a: map<Id, ModelElement>, b: map<Id, ModelElement>, id: Id, e: ModelElement)
    requires InjectiveOn(idMap, a.Keys + {id}) && ElementsRenamed(idMap, a, b) && e.id == id
    ensures ElementsRenamed(idMap, a[id := e], b[Renamed(idMap, id) := e.(id := Renamed(idMap, id))])
  {
    hide Renamed;
    var a', b' := a[id := e], b[Renamed(idMap, id) := e.(id := Renamed(idMap, id))];
    forall x | x in a'
      ensures Renamed(idMap, x) in b' && b'[Renamed(idMap, x)] == a'[x].(id := Renamed(idMap, x))
    {
      assert x != id ==> Renamed(idMap, x) != Renamed(idMap, id);
    }
    forall r | r in b'
      ensures exists x :: x in a' && Renamed(idMap, x) == r
    {
      if r in b {
        var x :| x in a && Renamed(idMap, x) == r;
        assert x in a';
      } else {
        assert id in a';
      }
    }
  }

  lemma IdsGrow(s: Snapshot, op: GraphOp)
    ensures SnapshotIds(ApplyOp(s, op)) <= SnapshotIds(s) + Mentions(op)
  {
  }

  /** Applying an operation and renaming ids commute, as long as the renaming keeps ids apart. */
  lemma ApplyOpCommutes(idMap: map<Id, Id>, s: Snapshot, r: Snapshot, op: GraphOp)
    requires InjectiveOn(idMap, SnapshotIds(s) + Mentions(op)) && IsRenaming(idMap, s, r)
    ensures IsRenaming(idMap, ApplyOp(s, op), ApplyOp(r, ResolveOp(idMap, op)))
  {
    hide ElementsRenamed, BodiesRenamed, RenameEdges, WithoutParents, ParentEdge, Renamed;
    match op {
      case Rename(id, name) =>
        RenamedKey(idMap, s.elements, r.elements, id);
        if id in s.elements {
          SameElement(idMap, s.elements, r.elements, id);
          RenamedUpdate(idMap, s.elements, r.elements, id, s.elements[id].(name := name));
        }
      case Create(id, kind, name, parent) =>
        RenamedKey(idMap, s.elements, r.elements, id);
        RenamedUpdate(idMap, s.elements, r.elements, id, ModelElement(id, kind, name, true, Human));
        RenameParentEdge(idMap, parent, id);
        RenameUnion(idMap, s.edges, ParentEdge(parent, id));
      case Reparent(id, parent) =>
        RenameParentEdge(idMap, parent, id);
        RenameWithoutParents(idMap, s.edges, id, SnapshotIds(s) + Mentions(op));
        RenameUnion(idMap, WithoutParents(s.edges, id), ParentEdge(parent, id));
    }
  }

  lemma SameElement(idMap: map<Id, Id>, a: map<Id, ModelElement>, b: map<Id, ModelElement>, id: Id)
    requires ElementsRenamed(idMap, a, b) && id in a
    ensures a[id].id == id && Renamed(idMap, id) in b && b[Renamed(idMap, id)] == a[id].(id := Renamed(idMap, id))
  {
  }

  function AllMentions(ops: seq<GraphOp>): set<Id> {
    if ops == [] then {} else Mentions(ops[0]) + AllMentions(ops[1..])
  }

  /** A resolved batch does to a project what the raw batch does, under the real ids. */
  lemma {:induction false} ApplyOpsCommute(idMap: map<Id, Id>, s: Snapshot, r: Snapshot, ops: seq<GraphOp>)
    requires InjectiveOn(idMap, SnapshotIds(s) + AllMentions(ops)) && IsRenaming(idMap, s, r)
    ensures IsRenaming(idMap, ApplyOps(s, ops), ApplyOps(r, ResolveOpsToRealIds(ops, idMap)))
    decreases |ops|
  {
    var resolved := ResolveOpsToRealIds(ops, idMap);
    if ops != [] {
      hide ApplyOp, ResolveOp, IsRenaming, SnapshotIds, Mentions;
      ApplyOpCommutes(idMap, s, r, ops[0]);
      IdsGrow(s, ops[0]);
      assert resolved[1..] == ResolveOpsToRealIds(ops[1..], idMap);
      ApplyOpsCommute(idMap, ApplyOp(s, ops[0]), ApplyOp(r, resolved[0]), ops[1..]);
    }
  }
}
