/** The diff of an edited text against the current graph. */
module TextDiff {
  import opened SysmlModel
  import opened Scanning
  import opened TextSyntax
  import opened Containment
  import opened Decimals
  import opened GraphOps

  datatype TextualError =
    | DuplicateAnchor(id: Id, span: Span)
    | KindChanged(id: Id, was: NodeKind, now: NodeKind, span: Span)
    | UnknownAnchor(id: Id, span: Span)
    | MissingElement(id: Id, name: string)

  datatype DiffResult = Accepted(ops: seq<GraphOp>) | Rejected(errors: seq<TextualError>)

  /** What a walk over the document has gathered so far. */
  datatype WalkState = WalkState(ops: seq<GraphOp>, errors: seq<TextualError>, seen: set<Id>, counter: nat)

  function TempId(n: nat): Id {
    "__new_" + Decimal(n)
  }

  /** Each contained element's parent; the last edge listed wins. */
  function ParentMap(edges: seq<Edge>): map<Id, Id> {
    if edges == [] then map[]
    else
      var e := edges[|edges| - 1];
      var rest := ParentMap(edges[..|edges| - 1]);
      if e.kind == Contains then rest[e.target := e.source] else rest
  }

  function Lookup(m: map<Id, Id>, id: Id): Option<Id> {
    if id in m then Some(m[id]) else None
  }

  /** The operations an element already in the model needs, to take on a name and a parent. */
  function Adjust(id: Id, was: ModelElement, wasParent: Option<Id>, name: string, parent: Option<Id>): seq<GraphOp> {
    (if was.name != name then [Rename(id, name)] else []) +
    (if wasParent != parent then [Reparent(id, parent)] else [])
  }

  function Walk(p: ParsedElement, parent: Option<Id>, byId: map<Id, ModelElement>, parentOf: map<Id, Id>,
                st: WalkState): WalkState
    decreases p, 1
  {
    match p.anchorId
    case Some(id) =>
      if id in st.seen then
        st.(errors := st.errors + [DuplicateAnchor(id, p.span)])
      else
        var st := st.(seen := st.seen + {id});
        if id !in byId then
          WalkAll(p.children, None, byId, parentOf, st.(errors := st.errors + [UnknownAnchor(id, p.span)]))
        else if byId[id].kind != p.kind then
          WalkAll(p.children, Some(id), byId, parentOf,
                  st.(errors := st.errors + [KindChanged(id, byId[id].kind, p.kind, p.span)]))
        else
          WalkAll(p.children, Some(id), byId, parentOf,
                  st.(ops := st.ops + Adjust(id, byId[id], Lookup(parentOf, id), p.name, parent)))
    case None =>
      var id := TempId(st.counter);
      WalkAll(p.children, Some(id), byId, parentOf,
              st.(ops := st.ops + [Create(id, p.kind, p.name, parent)], counter := st.counter + 1))
  }

  function WalkAll(ps: seq<ParsedElement>, parent: Option<Id>, byId: map<Id, ModelElement>, parentOf: map<Id, Id>,
                   st: WalkState): WalkState
    decreases ps, 2
  {
    if ps == [] then st
    else WalkAll(ps[1..], parent, byId, parentOf, Walk(ps[0], parent, byId, parentOf, st))
  }

  function MissingFrom(elements: seq<ModelElement>, seen: set<Id>): seq<TextualError> {
    if elements == [] then []
    else
      var e := elements[|elements| - 1];
      MissingFrom(elements[..|elements| - 1], seen) + if e.id in seen then [] else [MissingElement(e.id, e.name)]
  }

  function Start(): WalkState {
    WalkState([], [], {}, 0)
  }

  /** The outcome of a diff: every error found, or the operations if there is none. */
  function Diff(elements: seq<ModelElement>, edges: seq<Edge>, parsed: seq<ParsedElement>): DiffResult {
    var st := WalkAll(parsed, None, ById(elements), ParentMap(edges), Start());
    var errors := st.errors + MissingFrom(elements, st.seen);
    if errors == [] then Accepted(st.ops) else Rejected(errors)
  }

  // ----- The walk as the program runs it -----

  class Walker {
    const byId: map<Id, ModelElement>
    const parentOf: map<Id, Id>
    var ops: seq<GraphOp>
    var errors: seq<TextualError>
    var seenIds: set<Id>
    var tempCounter: nat

    constructor (byId: map<Id, ModelElement>, parentOf: map<Id, Id>)
      ensures this.byId == byId && this.parentOf == parentOf && State() == Start()
    {
      this.byId, this.parentOf := byId, parentOf;
      ops, errors, seenIds, tempCounter := [], [], {}, 0;
    }

    function State(): WalkState
      reads this
    {
      WalkState(ops, errors, seenIds, tempCounter)
    }

    method WalkElement(node: ParsedElement, parentRef: Option<Id>)
      modifies this
      ensures State() == Walk(node, parentRef, byId, parentOf, old(State()))
      decreases node, 1
    {
      var thisRef := None;
      match node.anchorId {
        case Some(id) =>
          if id in seenIds {
            errors := errors + [DuplicateAnchor(id, node.span)];
            return;
          }
          seenIds := seenIds + {id};
          if id in byId {
            var existing := byId[id];
            if existing.kind != node.kind {
              errors := errors + [KindChanged(id, existing.kind, node.kind, node.span)];
            } else {
              ghost var before := ops;
              if existing.name != node.name {
                ops := ops + [Rename(id, node.name)];
              }
              var currentParent := Lookup(parentOf, id);
              if currentParent != parentRef {
                ops := ops + [Reparent(id, parentRef)];
              }
              assert ops == before + Adjust(id, existing, currentParent, node.name, parentRef);
            }
            thisRef := Some(id);
          } else {
            errors := errors + [UnknownAnchor(id, node.span)];
          }
        case None =>
          var tempId := TempId(tempCounter);
          tempCounter := tempCounter + 1;
          ops := ops + [Create(tempId, node.kind, node.name, parentRef)];
          thisRef := Some(tempId);
      }
      WalkElements(node.children, thisRef);
    }

    method WalkElements(nodes: seq<ParsedElement>, parentRef: Option<Id>)
      modifies this
      ensures State() == WalkAll(nodes, parentRef, byId, parentOf, old(State()))
      decreases nodes, 2
    {
      hide Walk;
      assert nodes[0..] == nodes;
      for i := 0 to |nodes|
        invariant WalkAll(nodes[i..], parentRef, byId, parentOf, State())
               == WalkAll(nodes, parentRef, byId, parentOf, old(State()))
      {
        assert nodes[i..][1..] == nodes[i + 1..];
        WalkElement(nodes[i], parentRef);
      }
    }
  }

  method ComputeDiff(elements: seq<ModelElement>, edges: seq<Edge>, parsed: seq<ParsedElement>) returns (r: DiffResult)
    ensures r == Diff(elements, edges, parsed)
  {
    hide WalkAll;
    var parentOf: map<Id, Id> := map[];
    for i := 0 to |edges|
      invariant parentOf == ParentMap(edges[..i])
    {
      assert edges[..i + 1][..i] == edges[..i];
      if edges[i].kind == Contains {
        parentOf := parentOf[edges[i].target := edges[i].source];
      }
    }
    assert edges[..|edges|] == edges;
    var walker := new Walker(ById(elements), parentOf);
    walker.WalkElements(parsed, None);
    var errors := walker.errors;
    for i := 0 to |elements|
      invariant errors == walker.errors + MissingFrom(elements[..i], walker.seenIds)
    {
      assert elements[..i + 1][..i] == elements[..i];
      if elements[i].id !in walker.seenIds {
        errors := errors + [MissingElement(elements[i].id, elements[i].name)];
      }
    }
    assert elements[..|elements|] == elements;
    r := if errors == [] then Accepted(walker.ops) else Rejected(errors);
  }
}
