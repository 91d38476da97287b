/** The store's side of a batch of operations: every one is checked before any is written. */
module GraphStore {
  import opened SysmlModel
  import opened Scanning
  import opened Containment
  import opened GraphOps
  import opened TextDiff

  datatype Problem =
    | NoSuchElement(id: Id)
    | EmptyName
    | NoSuchParent(id: Id)
    | WouldCycle(id: Id, parent: Id)

  datatype OpError = OpError(opIndex: nat, problem: Problem)

  datatype Outcome = Applied(idMap: map<Id, Id>) | Refused(errors: seq<OpError>)

  /** Where the check of a batch has got to: containment as the operations so far would leave it, the
      real ids given to new elements, and the errors found. */
  datatype Plan = Plan(links: set<Edge>, parentOf: map<Id, Id>, idMap: map<Id, Id>, errors: seq<OpError>, minted: nat)

  predicate Blank(name: string) {
    forall c :: c in name ==> IsWhitespace(c)
  }

  predicate Known(existing: set<Id>, idMap: map<Id, Id>, ref: Option<Id>) {
    ref.Some? ==> ref.value in existing || ref.value in idMap.Values
  }

  ghost predicate IsBelow(links: set<Edge>, node: Id, candidate: Id) {
    node == candidate || Descends(links, node, candidate)
  }

  function Attached(plan: Plan, parent: Option<Id>, id: Id): Plan {
    plan.(links := plan.links + ParentEdge(parent, id),
          parentOf := if parent.Some? then plan.parentOf[id := parent.value] else plan.parentOf)
  }

  function Detached(plan: Plan, id: Id): Plan {
    if id in plan.parentOf then
      plan.(links := plan.links - {Edge(plan.parentOf[id], id, Contains)}, parentOf := plan.parentOf - {id})
    else plan
  }

  function Failed(plan: Plan, index: nat, problem: Problem): Plan {
    plan.(errors := plan.errors + [OpError(index, problem)])
  }

  /** One operation checked against the model and the operations before it. */
  ghost function Checked(plan: Plan, existing: set<Id>, uuids: nat -> Id, index: nat, op: GraphOp): Plan {
    match op
    case Rename(id, name) =>
      if id !in existing then Failed(plan, index, NoSuchElement(id))
      else if Blank(name) then Failed(plan, index, EmptyName)
      else plan
    case Create(tempId, _, _, parentId) =>
      var parent := RenamedRef(plan.idMap, parentId);
      if !Known(existing, plan.idMap, parent) then Failed(plan, index, NoSuchParent(parent.value))
      else
        var id := uuids(plan.minted);
        Attached(plan.(idMap := plan.idMap[tempId := id], minted := plan.minted + 1), parent, id)
    case Reparent(id, newParentId) =>
      var parent := RenamedRef(plan.idMap, newParentId);
      if id !in existing then Failed(plan, index, NoSuchElement(id))
      else if !Known(existing, plan.idMap, parent) then Failed(plan, index, NoSuchParent(parent.value))
      else if parent.Some? &&
        IsBelow(plan.links, id, parent.value) then Failed(plan, index, WouldCycle(id, parent.value))
      else Attached(Detached(plan, id), parent, id)
  }

  ghost function CheckedAll(plan: Plan, existing: set<Id>, uuids: nat -> Id, ops: seq<GraphOp>): Plan {
    if ops == [] then plan
    else
      var last := |ops| - 1;
      Checked(CheckedAll(plan, existing, uuids, ops[..last]), existing, uuids, last, ops[last])
  }

  function StartPlan(contains: seq<Edge>): Plan {
    Plan(EdgeSet(contains), ParentMap(contains), map[], [], 0)
  }

  // ----- Writing -----

  /** An edge is written only between elements that are there. */
  function MergedEdge(elements: map<Id, ModelElement>, parent: Option<Id>, id: Id): set<Edge> {
    if parent.Some? && parent.value in elements && id in elements then {Edge(parent.value, id, Contains)} else {}
  }

  function Written(s: Snapshot, idMap: map<Id, Id>, op: GraphOp): Snapshot {
    match op
    case Rename(id, name) =>
      if id in s.elements then s.(elements := s.elements[id := s.elements[id].(name := name)]) else s
    case Create(tempId, kind, name, parentId) =>
      var id := Renamed(idMap, tempId);
      var elements := s.elements[id := ModelElement(id, kind, name, true, Human)];
      s.(elements := elements, edges := s.edges + MergedEdge(elements, RenamedRef(idMap, parentId), id))
    case Reparent(id, newParentId) =>
      s.(edges := WithoutParents(s.edges, id) + MergedEdge(s.elements, RenamedRef(idMap, newParentId), id))
  }

  function WrittenAll(s: Snapshot, idMap: map<Id, Id>, ops: seq<GraphOp>): Snapshot {
    if ops == [] then s
    else Written(WrittenAll(s, idMap, ops[..|ops| - 1]), idMap, ops[|ops| - 1])
  }

  // ----- The store as the program runs it -----

  /** The index the check keeps, so that an ancestry question walks one subtree only. */
  class Planner {
    var childrenOf: map<Id, seq<Id>>
    var parentOf: map<Id, Id>
    var idMap: map<Id, Id>
    var opErrors: seq<OpError>
    var minted: nat
    ghost var links: set<Edge>

    ghost predicate Valid()
      reads this
    {
      forall p, c :: Joined(links, p, c) <==> p in childrenOf && c in childrenOf[p]
    }

    ghost predicate Holds(plan: Plan)
      reads this
    {
      plan == Plan(links, parentOf, idMap, opErrors, minted)
    }

    constructor (contains: seq<Edge>)
      requires forall e :: e in contains ==> e.kind == Contains
      ensures Valid() && Holds(StartPlan(contains))
    {
      childrenOf, parentOf, idMap, opErrors, minted, links := map[], map[], map[], [], 0, {};
      new;
      for i := 0 to |contains|
        invariant Valid() && Holds(StartPlan(contains[..i]))
      {
        assert contains[..i + 1][..i] == contains[..i];
        assert EdgeSet(contains[..i + 1]) == EdgeSet(contains[..i]) + {contains[i]};
        AddChild(contains[i].source, contains[i].target);
        parentOf := parentOf[contains[i].target := contains[i].source];
      }
      assert contains[..|contains|] == contains;
    }

    method AddChild(parent: Id, child: Id)
      requires Valid()
      modifies this`childrenOf, this`links
      ensures Valid() && links == old(links) + {Edge(parent, child, Contains)}
    {
      var siblings := if parent in childrenOf then childrenOf[parent] else [];
      childrenOf := childrenOf[parent := siblings + [child]];
      links := links + {Edge(parent, child, Contains)};
      forall p, c
        ensures Joined(links, p, c) <==> p in childrenOf && c in childrenOf[p]
      {
        assert Joined(links, p, c) <==> Joined(old(links), p, c) || (p == parent && c == child);
      }
    }

    method RemoveChild(parent: Id, child: Id)
      requires Valid()
      modifies this`childrenOf, this`links
      ensures Valid() && links == old(links) - {Edge(parent, child, Contains)}
    {
      if parent in childrenOf {
        var siblings := Without(childrenOf[parent], child);
        childrenOf := childrenOf[parent := siblings];
      }
      links := links - {Edge(parent, child, Contains)};
      forall p, c
        ensures Joined(links, p, c) <==> p in childrenOf && c in childrenOf[p]
      {
        assert Joined(links, p, c) <==> Joined(old(links), p, c) && !(p == parent && c == child);
      }
    }

    method Attach(parent: Option<Id>, id: Id, ghost plan: Plan)
      requires Valid() && Holds(plan)
      modifies this`childrenOf, this`links, this`parentOf
      ensures Valid() && Holds(Attached(plan, parent, id))
    {
      if parent.Some? {
        AddChild(parent.value, id);
        parentOf := parentOf[id := parent.value];
      }
    }

    method CheckOp(existing: set<Id>, uuids: nat -> Id, index: nat, op: GraphOp, ghost plan: Plan)
      requires Valid() && Holds(plan)
      modifies this
      ensures Valid() && Holds(Checked(plan, existing, uuids, index, op))
    {
      hide Blank, ParentEdge;
      match op {
        case Rename(id, name) =>
          if id !in existing {
            opErrors := opErrors + [OpError(index, NoSuchElement(id))];
          } else if Blank(name) {
            opErrors := opErrors + [OpError(index, EmptyName)];
          }
        case Create(tempId, _, _, parentId) =>
          var parent := RenamedRef(idMap, parentId);
          if !Known(existing, idMap, parent) {
            opErrors := opErrors + [OpError(index, NoSuchParent(parent.value))];
            return;
          }
          var realId := uuids(minted);
          idMap, minted := idMap[tempId := realId], minted + 1;
          Attach(parent, realId, plan.(idMap := idMap, minted := minted));
        case Reparent(id, newParentId) =>
          if id !in existing {
            opErrors := opErrors + [OpError(index, NoSuchElement(id))];
            return;
          }
          var parent := RenamedRef(idMap, newParentId);
          if !Known(existing, idMap, parent) {
            opErrors := opErrors + [OpError(index, NoSuchParent(parent.value))];
            return;
          }
          if parent.Some? {
            var below := IsDescendant(childrenOf, links, id, parent.value);
            if below {
              opErrors := opErrors + [OpError(index, WouldCycle(id, parent.value))];
              return;
            }
          }
          if id in parentOf {
            RemoveChild(parentOf[id], id);
            parentOf := parentOf - {id};
          }
          Attach(parent, id, Detached(plan, id));
      }
    }
  }

  function Without(ids: seq<Id>, id: Id): (r: seq<Id>)
    ensures forall x :: x in r <==> x in ids && x != id
  {
    if ids == [] then []
    else
      var rest := Without(ids[..|ids| - 1], id);
      if ids[|ids| - 1] == id then rest else rest + [ids[|ids| - 1]]
  }

  /** The search below one element: it visits each element once, even where containment has cycles. */
  method IsDescendant(childrenOf: map<Id, seq<Id>>, ghost links: set<Edge>, node: Id, candidate: Id)
    returns (below: bool)
    requires forall p, c :: Joined(links, p, c) <==> p in childrenOf && c in childrenOf[p]
    ensures below <==> IsBelow(links, node, candidate)
  {
    hide Joined, Descends;
    if node == candidate {
      return true;
    }
    var stack := if node in childrenOf then childrenOf[node] else [];
    var visited: set<Id> := {};
    ghost var all := set e | e in links :: e.target;
    forall x | x in stack
      ensures Descends(links, node, x)
    {
      DescendsFurther(links, node, node, x);
    }
    while stack != []
      invariant forall x :: x in stack || x in visited ==> Descends(links, node, x)
      invariant candidate !in visited
      invariant visited <= all
      invariant forall x, y :: (x == node || x in visited) && Joined(links, x, y) ==> y in visited || y in stack
      decreases all - visited, |stack|
    {
      var current := stack[|stack| - 1];
      ghost var before := stack;
      stack := stack[..|stack| - 1];
      assert before == stack + [current];
      if current == candidate {
        return true;
      }
      if current in visited {
        continue;
      }
      BelowIsATarget(links, node, current);
      visited := visited + {current};
      if current in childrenOf {
        forall x | x in childrenOf[current]
          ensures Descends(links, node, x)
        {
          DescendsFurther(links, node, current, x);
        }
        stack := stack + childrenOf[current];
      }
    }
    ClosedSetHoldsAllBelow(links, visited, node);
    return false;
  }

  lemma BelowIsATarget(links: set<Edge>, from: Id, to: Id)
    requires Descends(links, from, to)
    ensures exists e :: e in links && e.target == to
  {
    BelowContainsTarget(links, from, to);
  }

  class LiveGraph {
    var elements: map<Id, ModelElement>
    var edges: set<Edge>
    var bodies: map<Id, Body>

    function State(): Snapshot
      reads this
    {
      Snapshot(elements, edges, bodies)
    }

    /** All the operations are written, or, if any is refused, none. */
    method ApplyGraphOps(contains: seq<Edge>, ops: seq<GraphOp>, uuids: nat -> Id) returns (r: Outcome)
      requires EdgeSet(contains) == ContainsOf(edges)
      modifies this
      ensures var plan := CheckedAll(StartPlan(contains), old(elements.Keys), uuids, ops);
              if plan.errors == [] then r == Applied(plan.idMap) && State() == WrittenAll(old(State()), plan.idMap, ops)
              else r == Refused(plan.errors) && State() == old(State())
    {
      hide Checked, Written;
      OnlyContains(contains, edges);
      var planner := new Planner(contains);
      var existing := elements.Keys;
      for i := 0 to |ops|
        invariant State() == old(State())
        invariant planner.Valid() && planner.Holds(CheckedAll(StartPlan(contains), existing, uuids, ops[..i]))
      {
        assert ops[..i + 1][..i] == ops[..i];
        planner.CheckOp(existing, uuids, i, ops[i], CheckedAll(StartPlan(contains), existing, uuids, ops[..i]));
      }
      assert ops[..|ops|] == ops;
      if planner.opErrors != [] {
        return Refused(planner.opErrors);
      }
      var idMap := planner.idMap;
      for i := 0 to |ops|
        invariant State() == WrittenAll(old(State()), idMap, ops[..i])
      {
        assert ops[..i + 1][..i] == ops[..i];
        Write(idMap, ops[i]);
      }
      return Applied(idMap);
    }

    method Write(idMap: map<Id, Id>, op: GraphOp)
      modifies this
      ensures State() == Written(old(State()), idMap, op)
    {
      match op {
        case Rename(id, name) =>
          if id in elements {
            elements := elements[id := elements[id].(name := name)];
          }
        case Create(tempId, kind, name, parentId) =>
          var realId := Renamed(idMap, tempId);
          elements := elements[realId := ModelElement(realId, kind, name, true, Human)];
          if parentId.Some? {
            MergeContains(Renamed(idMap, parentId.value), realId);
          }
        case Reparent(id, newParentId) =>
          edges := WithoutParents(edges, id);
          if newParentId.Some? {
            MergeContains(Renamed(idMap, newParentId.value), id);
          }
      }
    }

    method MergeContains(parent: Id, id: Id)
      modifies this`edges
      ensures edges == old(edges) + MergedEdge(elements, Some(parent), id)
    {
      if parent in elements && id in elements {
        edges := edges + {Edge(parent, id, Contains)};
      }
    }
  }

  function ContainsOf(edges: set<Edge>): set<Edge> {
    set e | e in edges && e.kind == Contains
  }

  lemma OnlyContains(rows: seq<Edge>, edges: set<Edge>)
    requires EdgeSet(rows) == ContainsOf(edges)
    ensures forall e :: e in rows ==> e.kind == Contains
  {
    assert forall e :: e in rows ==> e in EdgeSet(rows);
  }
}
