/** What a diff answers as a function of the document: its errors, one for each element that deserves one and in
    reading order, and its operations, each only where something changes. */
module DiffReports {
  import opened SysmlModel
  import opened Scanning
  import opened TextSyntax
  import opened Containment
  import opened GraphOps
  import opened TextDiff
  import opened DiffAcceptance
  import opened DiffRealisation
  import opened DiffTheorems
  import opened DiffErrors

  // ----- Which elements are looked at -----

  /** An anchored element of the document that the walk comes to. */
  datatype Visit = Visit(id: Id, kind: NodeKind, span: Span)

  function IdsOf(visits: seq<Visit>): set<Id> {
    set v | v in visits :: v.id
  }

  /** The anchored elements in reading order; what stands below one whose id has been read before is passed over. */
  function Visits(ps: seq<ParsedElement>, read: set<Id>): seq<Visit>
    decreases ps
  {
    if ps == [] then []
    else
      var p := ps[0];
      match p.anchorId
      case None =>
        var inner := Visits(p.children, read);
        inner + Visits(ps[1..], read + IdsOf(inner))
      case Some(id) =>
        if id in read then [Visit(id, p.kind, p.span)] + Visits(ps[1..], read)
        else
          var inner := Visits(p.children, read + {id});
          [Visit(id, p.kind, p.span)] + (inner + Visits(ps[1..], read + {id} + IdsOf(inner)))
  }

  /** Every anchored element in reading order. */
  function AnchoredElements(ps: seq<ParsedElement>): seq<Visit>
    decreases ps
  {
    if ps == [] then []
    else
      (if ps[0].anchorId.Some? then [Visit(ps[0].anchorId.value, ps[0].kind, ps[0].span)] else []) +
      (AnchoredElements(ps[0].children) + AnchoredElements(ps[1..]))
  }

  lemma IdsConcat(a: seq<Visit>, b: seq<Visit>)
    ensures IdsOf(a + b) == IdsOf(a) + IdsOf(b)
  {
  }

  ghost predicate NoIdTwice(visits: seq<Visit>) {
    forall i, j :: 0 <= i < j < |visits| ==> visits[i].id != visits[j].id
  }

  lemma NoIdTwiceParts(a: seq<Visit>, b: seq<Visit>)
    requires NoIdTwice(a + b)
    ensures NoIdTwice(a) && NoIdTwice(b) && IdsOf(a) !! IdsOf(b)
  {
    var all := a + b;
    forall i, j | 0 <= i < j < |a|
      ensures a[i].id != a[j].id
    {
      assert all[i] == a[i] && all[j] == a[j];
    }
    forall i, j | 0 <= i < j < |b|
      ensures b[i].id != b[j].id
    {
      assert all[|a| + i] == b[i] && all[|a| + j] == b[j];
    }
    forall x | x in IdsOf(a)
      ensures x !in IdsOf(b)
    {
      var v :| v in a && v.id == x;
      var i :| 0 <= i < |a| && a[i] == v;
      forall w | w in b
        ensures w.id != x
      {
        var j :| 0 <= j < |b| && b[j] == w;
        assert all[i] == v && all[|a| + j] == w;
      }
    }
  }

  /** Where no id is anchored twice, every anchored element is looked at. */
  lemma {:induction false} AllAreVisited(ps: seq<ParsedElement>, read: set<Id>)
    requires NoIdTwice(AnchoredElements(ps)) && IdsOf(AnchoredElements(ps)) !! read
    ensures Visits(ps, read) == AnchoredElements(ps)
    decreases ps
  {
    hide NoIdTwice, IdsOf;
    if ps != [] {
      var p := ps[0];
      var own := if p.anchorId.Some? then [Visit(p.anchorId.value, p.kind, p.span)] else [];
      var inner, outer := AnchoredElements(p.children), AnchoredElements(ps[1..]);
      NoIdTwiceParts(own, inner + outer);
      NoIdTwiceParts(inner, outer);
      IdsConcat(own, inner + outer);
      IdsConcat(inner, outer);
      OwnIds1(p, own);
      AllAreVisited(p.children, read + IdsOf(own));
      AllAreVisited(ps[1..], read + IdsOf(own) + IdsOf(inner));
      assert read + {} == read;
      if p.anchorId.None? {
        assert own + (inner + outer) == inner + outer;
      }
    }
  }

  lemma OwnIds1(p: ParsedElement, own: seq<Visit>)
    requires own == if p.anchorId.Some? then [Visit(p.anchorId.value, p.kind, p.span)] else []
    ensures IdsOf(own) == if p.anchorId.Some? then {p.anchorId.value} else {}
  {
  }

  // ----- What they are answered with -----

  /** What is wrong with the `i`th of the elements looked at: its id was read before, or is not in the model, or is
      of another kind there. */
  function Verdict(visits: seq<Visit>, i: nat, byId: map<Id, ModelElement>): seq<TextualError>
    requires i < |visits|
  {
    var v := visits[i];
    if exists j :: 0 <= j < i && visits[j].id == v.id then [DuplicateAnchor(v.id, v.span)]
    else if v.id !in byId then [UnknownAnchor(v.id, v.span)]
    else if byId[v.id].kind != v.kind then [KindChanged(v.id, byId[v.id].kind, v.kind, v.span)]
    else []
  }

  function Report(visits: seq<Visit>, n: nat, byId: map<Id, ModelElement>): seq<TextualError>
    requires n <= |visits|
  {
    if n == 0 then [] else Report(visits, n - 1, byId) + Verdict(visits, n - 1, byId)
  }

  lemma {:induction false} ReportOfPrefix(visits: seq<Visit>, more: seq<Visit>, n: nat, byId: map<Id, ModelElement>)
    requires n <= |visits|
    ensures Report(visits + more, n, byId) == Report(visits, n, byId)
    decreases n
  {
    if n > 0 {
      ReportOfPrefix(visits, more, n - 1, byId);
      assert forall j :: 0 <= j < n ==> (visits + more)[j] == visits[j];
    }
  }

  /** One more element looked at. */
  lemma ReportOneMore(visits: seq<Visit>, v: Visit, byId: map<Id, ModelElement>)
    ensures Report(visits + [v], |visits| + 1, byId) ==
            Report(visits, |visits|, byId) +
            if v.id in IdsOf(visits) then [DuplicateAnchor(v.id, v.span)]
            else if v.id !in byId then [UnknownAnchor(v.id, v.span)]
            else if byId[v.id].kind != v.kind then [KindChanged(v.id, byId[v.id].kind, v.kind, v.span)]
            else []
  {
    hide Report;
    ReportSplits(visits, v, byId);
    ReportOfPrefix(visits, [v], |visits|, byId);
    var all := visits + [v];
    if v.id in IdsOf(visits) {
      var w :| w in visits && w.id == v.id;
      var j :| 0 <= j < |visits| && visits[j] == w;
      assert all[j].id == v.id;
    } else {
      forall j | 0 <= j < |visits|
        ensures all[j].id != v.id
      {
        assert visits[j] in visits;
      }
    }
  }

  lemma ReportSplits(visits: seq<Visit>, v: Visit, byId: map<Id, ModelElement>)
    ensures Report(visits + [v], |visits| + 1, byId) ==
            Report(visits + [v], |visits|, byId) + Verdict(visits + [v], |visits|, byId)
  {
  }

  ghost predicate Told(st: WalkState, visits: seq<Visit>, byId: map<Id, ModelElement>) {
    st.seen == IdsOf(visits) && st.errors == Report(visits, |visits|, byId)
  }

  /** The state in which an anchored element's children are walked, if they are. */
  lemma OneMoreTold(st: WalkState, visits: seq<Visit>, byId: map<Id, ModelElement>, p: ParsedElement, id: Id,
                    parent: Option<Id>, parentOf: map<Id, Id>) returns (entered: WalkState, ref: Option<Id>)
    requires Told(st, visits, byId) && p.anchorId == Some(id)
    ensures Told(entered, visits + [Visit(id, p.kind, p.span)], byId) && entered.seen == st.seen + {id}
    ensures Walk(p, parent, byId, parentOf, st) ==
            if id in st.seen then entered else WalkAll(p.children, ref, byId, parentOf, entered)
  {
    hide WalkAll, Walk, Report, IdsOf, Adjust, Lookup;
    var v := Visit(id, p.kind, p.span);
    ReportOneMore(visits, v, byId);
    IdsConcat(visits, [v]);
    OwnIds1(p, [v]);
    WalkIs(p, id, parent, byId, parentOf, st);
    assert st.errors + [] == st.errors;
    var seen := st.seen + {id};
    if id in st.seen {
      assert seen == st.seen;
      entered, ref := st.(errors := st.errors + [DuplicateAnchor(id, p.span)]), None;
    } else if id !in byId {
      entered, ref := WalkState(st.ops, st.errors + [UnknownAnchor(id, p.span)], seen, st.counter), None;
    } else if byId[id].kind != p.kind {
      var error := KindChanged(id, byId[id].kind, p.kind, p.span);
      entered, ref := WalkState(st.ops, st.errors + [error], seen, st.counter), Some(id);
    } else {
      var ops := st.ops + Adjust(id, byId[id], Lookup(parentOf, id), p.name, parent);
      entered, ref := WalkState(ops, st.errors, seen, st.counter), Some(id);
    }
  }

  lemma WalkIs(p: ParsedElement, id: Id, parent: Option<Id>, byId: map<Id, ModelElement>, parentOf: map<Id, Id>,
               st: WalkState)
    requires p.anchorId == Some(id)
    ensures Walk(p, parent, byId, parentOf, st) ==
            if id in st.seen then st.(errors := st.errors + [DuplicateAnchor(id, p.span)])
            else
              var seen := st.seen + {id};
              if id !in byId then
                WalkAll(p.children, None, byId, parentOf,
                        WalkState(st.ops, st.errors + [UnknownAnchor(id, p.span)], seen, st.counter))
              else if byId[id].kind != p.kind then
                WalkAll(p.children, Some(id), byId, parentOf,
                        WalkState(st.ops, st.errors + [KindChanged(id, byId[id].kind, p.kind, p.span)], seen,
                                  st.counter))
              else
                WalkAll(p.children, Some(id), byId, parentOf,
                        WalkState(st.ops + Adjust(id, byId[id], Lookup(parentOf, id), p.name, parent), st.errors, seen,
                                  st.counter))
  {
    hide WalkAll, Adjust, Lookup;
  }

  lemma ToldOfOps(st: WalkState, visits: seq<Visit>, byId: map<Id, ModelElement>, ops: seq<GraphOp>, counter: nat)
    requires Told(st, visits, byId)
    ensures Told(st.(ops := ops, counter := counter), visits, byId)
  {
  }

  function OwnVisit(p: ParsedElement): seq<Visit> {
    if p.anchorId.Some? then [Visit(p.anchorId.value, p.kind, p.span)] else []
  }

  /** The elements looked at below an element. */
  function InnerVisits(p: ParsedElement, read: set<Id>): seq<Visit> {
    match p.anchorId
    case None => Visits(p.children, read)
    case Some(id) => if id in read then [] else Visits(p.children, read + {id})
  }

  lemma {:induction false} OneTells(p: ParsedElement, parent: Option<Id>, byId: map<Id, ModelElement>,
                                    parentOf: map<Id, Id>, st: WalkState, visits: seq<Visit>)
    requires Told(st, visits, byId)
    ensures Told(Walk(p, parent, byId, parentOf, st), visits + (OwnVisit(p) + InnerVisits(p, st.seen)), byId)
    decreases p, 1
  {
    hide WalkAll, Walk, Report, Told, Adjust, Lookup, TempId, Visits;
    if p.anchorId.None? {
      WalkNew(p, parent, byId, parentOf, st);
      var id := TempId(st.counter);
      var entered := st.(ops := st.ops + [Create(id, p.kind, p.name, parent)], counter := st.counter + 1);
      ToldOfOps(st, visits, byId, entered.ops, entered.counter);
      WalkTells(p.children, Some(id), byId, parentOf, entered, visits);
      assert [] + InnerVisits(p, st.seen) == InnerVisits(p, st.seen);
    } else {
      var id := p.anchorId.value;
      var entered, ref := OneMoreTold(st, visits, byId, p, id, parent, parentOf);
      if id in st.seen {
        assert OwnVisit(p) + [] == OwnVisit(p);
      } else {
        WalkTells(p.children, ref, byId, parentOf, entered, visits + OwnVisit(p));
        VisitsRegroup(visits, OwnVisit(p), InnerVisits(p, st.seen));
      }
    }
  }

  lemma VisitsRegroup(a: seq<Visit>, b: seq<Visit>, c: seq<Visit>)
    ensures (a + b) + c == a + (b + c)
  {
  }

  /** A walk looks at the elements of the document in reading order and answers each as it deserves. */
  lemma {:induction false} WalkTells(ps: seq<ParsedElement>, parent: Option<Id>, byId: map<Id, ModelElement>,
                                     parentOf: map<Id, Id>, st: WalkState, visits: seq<Visit>)
    requires Told(st, visits, byId)
    ensures Told(WalkAll(ps, parent, byId, parentOf, st), visits + Visits(ps, st.seen), byId)
    decreases ps, 2
  {
    hide WalkAll, Walk, Report, Told, IdsOf, Visits, OwnVisit, InnerVisits;
    if ps == [] {
      NothingWalked(ps, parent, byId, parentOf, st);
      NothingVisited(visits, ps, st.seen);
    } else {
      WalkAllSplits(ps, parent, byId, parentOf, st);
      OneTells(ps[0], parent, byId, parentOf, st, visits);
      var mid, own := Walk(ps[0], parent, byId, parentOf, st), OwnVisit(ps[0]) + InnerVisits(ps[0], st.seen);
      WalkTells(ps[1..], parent, byId, parentOf, mid, visits + own);
      ToldSeen(st, visits, byId);
      ToldSeen(mid, visits + own, byId);
      IdsConcat(visits, own);
      VisitsSplit(ps, st.seen);
      VisitsRegroup(visits, own, Visits(ps[1..], mid.seen));
    }
  }

  lemma NothingVisited(visits: seq<Visit>, ps: seq<ParsedElement>, read: set<Id>)
    requires ps == []
    ensures visits + Visits(ps, read) == visits
  {
  }

  lemma ToldSeen(st: WalkState, visits: seq<Visit>, byId: map<Id, ModelElement>)
    requires Told(st, visits, byId)
    ensures st.seen == IdsOf(visits)
  {
  }

  lemma WalkNew(p: ParsedElement, parent: Option<Id>, byId: map<Id, ModelElement>, parentOf: map<Id, Id>, st: WalkState)
    requires p.anchorId.None?
    ensures var id := TempId(st.counter);
            Walk(p, parent, byId, parentOf, st) ==
            WalkAll(p.children, Some(id), byId, parentOf,
                    st.(ops := st.ops + [Create(id, p.kind, p.name, parent)], counter := st.counter + 1))
  {
    hide WalkAll, TempId;
  }

  lemma VisitsSplit(ps: seq<ParsedElement>, read: set<Id>)
    requires ps != []
    ensures var own := OwnVisit(ps[0]) + InnerVisits(ps[0], read);
            Visits(ps, read) == own + Visits(ps[1..], read + IdsOf(own))
  {
    var p := ps[0];
    var own, inner := OwnVisit(p), InnerVisits(p, read);
    IdsConcat(own, inner);
    OwnIds1(p, own);
    match p.anchorId {
      case None =>
        assert own + inner == inner;
        assert read + ({} + IdsOf(inner)) == read + IdsOf(inner);
      case Some(id) =>
        if id in read {
          assert IdsOf(inner) == {};
          assert own + inner == own;
          assert read + ({id} + {}) == read;
        } else {
          assert read + ({id} + IdsOf(inner)) == read + {id} + IdsOf(inner);
          VisitsRegroup(own, inner, Visits(ps[1..], read + {id} + IdsOf(inner)));
        }
    }
  }

  /** The elements of the model that none of those looked at anchors, in the model's order. */
  function Missing(elements: seq<ModelElement>, read: set<Id>): seq<TextualError> {
    if elements == [] then []
    else (if elements[0].id in read then [] else [MissingElement(elements[0].id, elements[0].name)]) +
         Missing(elements[1..], read)
  }

  lemma {:induction false} MissingIs(elements: seq<ModelElement>, read: set<Id>)
    ensures MissingFrom(elements, read) == Missing(elements, read)
    decreases |elements|
  {
    if |elements| == 1 {
      assert elements[..0] == [] && elements[1..] == [];
    } else if elements != [] {
      var n := |elements| - 1;
      var mid := elements[1..n];
      MissingIs(elements[..n], read);
      MissingIs(elements[1..], read);
      MissingIs(mid, read);
      assert elements[..n][0] == elements[0] && elements[..n][1..] == mid;
      assert elements[1..][..|elements[1..]| - 1] == mid && elements[1..][|elements[1..]| - 1] == elements[n];
    }
  }

  /** A diff is rejected exactly when something is wrong, and then says, element by element in reading order, what is
      wrong with those it looks at, and then which elements of the model are not among them. */
  lemma RejectedWith(elements: seq<ModelElement>, edges: seq<Edge>, parsed: seq<ParsedElement>)
    ensures var visits := Visits(parsed, {});
            var errors := Report(visits, |visits|, ById(elements)) + Missing(elements, IdsOf(visits));
            var r := Diff(elements, edges, parsed);
            (r.Rejected? <==> errors != []) && (r.Rejected? ==> r.errors == errors)
  {
    hide WalkAll, Report, Missing, MissingFrom, ById, ParentMap;
    var visits := Visits(parsed, {});
    NothingTold(ById(elements));
    WalkTells(parsed, None, ById(elements), ParentMap(edges), Start(), []);
    assert [] + visits == visits;
    MissingIs(elements, IdsOf(visits));
  }

  lemma NothingTold(byId: map<Id, ModelElement>)
    ensures Told(Start(), [], byId)
  {
  }

  // ----- The operations of an accepted diff -----

  /** An operation is there for an entry of the document: a creation for a new one, a renaming for one whose name
      changes, a move for one whose parent changes. */
  ghost predicate Called(op: GraphOp, e: Entry, elements: seq<ModelElement>, edges: seq<Edge>) {
    match op
    case Create(id, kind, name, parent) => !e.known && e == Entry(id, false, kind, name, parent)
    case Rename(id, name) =>
      e.known && e.ref == id && e.name == name && id in ById(elements) && ById(elements)[id].name != name
    case Reparent(id, parent) => e.known && e.ref == id && e.parent == parent && !HasParent(edges, id, parent)
  }

  /** The parent an element has by the stored edges, if any. */
  ghost predicate HasParent(edges: seq<Edge>, id: Id, parent: Option<Id>) {
    if parent.Some? then Edge(parent.value, id, Contains) in edges else forall p :: Edge(p, id, Contains) !in edges
  }

  lemma HasParentIs(edges: seq<Edge>, id: Id, parent: Option<Id>)
    requires SingleParent(EdgeSet(edges))
    ensures HasParent(edges, id, parent) <==> Lookup(ParentMap(edges), id) == parent
  {
    hide ParentMap, SingleParent;
    if parent.Some? {
      LookupIsTheParent(edges, id, parent.value);
    }
    forall p
      ensures Edge(p, id, Contains) in edges <==> Lookup(ParentMap(edges), id) == Some(p)
    {
      LookupIsTheParent(edges, id, p);
    }
    var l := Lookup(ParentMap(edges), id);
    assert l.Some? ==> Edge(l.value, id, Contains) in edges;
  }

  lemma CalledInEntry(e: Entry, elements: seq<ModelElement>, edges: seq<Edge>, op: GraphOp)
    requires SingleParent(EdgeSet(edges)) && (e.known ==> e.ref in ById(elements))
    ensures op in EntryOps(e, ById(elements), ParentMap(edges)) <==> Called(op, e, elements, edges)
  {
    hide ById, ParentMap, SingleParent, HasParent;
    HasParentIs(edges, e.ref, e.parent);
  }

  lemma {:induction false} CalledInEntries(entries: seq<Entry>, elements: seq<ModelElement>, edges: seq<Edge>,
                                           op: GraphOp)
    requires SingleParent(EdgeSet(edges)) && forall e :: e in entries && e.known ==> e.ref in ById(elements)
    ensures op in OpsFor(entries, ById(elements), ParentMap(edges)) <==>
            exists e :: e in entries && Called(op, e, elements, edges)
    decreases |entries|
  {
    hide ById, ParentMap, SingleParent, Called, EntryOps;
    if entries != [] {
      assert entries[0] in entries;
      CalledInEntry(entries[0], elements, edges, op);
      assert forall e :: e in entries[1..] ==> e in entries;
      CalledInEntries(entries[1..], elements, edges, op);
    }
  }

  /** An accepted diff's operations are just those something calls for: nothing is renamed to the name it has or moved
      to where it is. */
  lemma AcceptedOpsAreCalled(elements: seq<ModelElement>, edges: seq<Edge>, parsed: seq<ParsedElement>, op: GraphOp)
    requires Diffable(elements, edges) && Diff(elements, edges, parsed).Accepted?
    ensures op in Diff(elements, edges, parsed).ops <==>
            exists e :: e in Entries(parsed, None, 0) && Called(op, e, elements, edges)
  {
    hide ById, ParentMap, SingleParent, Called, Entries, Diff, Anchors, NoTemps, Distinct;
    DiffAcceptsFaithfulEdits(elements, edges, parsed);
    EntriesAreSound(parsed, None, 0);
    var entries := Entries(parsed, None, 0);
    forall e | e in entries && e.known
      ensures e.ref in ById(elements)
    {
      assert SoundEntry(e, Anchors(parsed));
    }
    CalledInEntries(entries, elements, edges, op);
  }

  lemma {:induction false} OpsOnce(entries: seq<Entry>, byId: map<Id, ModelElement>, parentOf: map<Id, Id>)
    requires Distinct(Refs(entries))
    ensures Distinct(OpsFor(entries, byId, parentOf))
    ensures forall op :: op in OpsFor(entries, byId, parentOf) ==> OpRef(op) in RefSet(entries)
    decreases |entries|
  {
    if entries != [] {
      var first, rest := entries[0], entries[1..];
      DistinctRest(entries);
      OpsOnce(rest, byId, parentOf);
      assert first in entries && forall e :: e in rest ==> e in entries;
      var own, others := EntryOps(first, byId, parentOf), OpsFor(rest, byId, parentOf);
      forall op | op in own
        ensures OpRef(op) == first.ref
      {
      }
      DistinctApart(own, others, first.ref);
    }
  }

  function OpRef(op: GraphOp): Id {
    match op case Rename(id, _) => id case Create(id, _, _, _) => id case Reparent(id, _) => id
  }

  lemma DistinctRest(entries: seq<Entry>)
    requires entries != [] && Distinct(Refs(entries))
    ensures Distinct(Refs(entries[1..])) && entries[0].ref !in RefSet(entries[1..])
  {
    var refs, rest := Refs(entries), entries[1..];
    forall i, j | 0 <= i < j < |rest|
      ensures Refs(rest)[i] != Refs(rest)[j]
    {
      assert refs[i + 1] != refs[j + 1];
    }
    forall e | e in rest
      ensures e.ref != entries[0].ref
    {
      var i :| 0 <= i < |rest| && rest[i] == e;
      assert refs[0] != refs[i + 1];
    }
  }

  lemma DistinctApart(own: seq<GraphOp>, others: seq<GraphOp>, ref: Id)
    requires Distinct(own) && Distinct(others)
    requires (forall op :: op in own ==> OpRef(op) == ref) && forall op :: op in others ==> OpRef(op) != ref
    ensures Distinct(own + others)
  {
    var all := own + others;
    forall i, j | 0 <= i < j < |all|
      ensures all[i] != all[j]
    {
      if i < |own| <= j {
        assert own[i] in own && others[j - |own|] in others;
      }
    }
  }

  /** And no operation is given twice. */
  lemma AcceptedOpsOnce(elements: seq<ModelElement>, edges: seq<Edge>, parsed: seq<ParsedElement>)
    requires Diffable(elements, edges) && Diff(elements, edges, parsed).Accepted?
    ensures Distinct(Diff(elements, edges, parsed).ops)
  {
    hide ById, ParentMap, SingleParent, Entries, Diff, NoTemps, Distinct, Refs, OpsFor, Accurate, Faithful;
    DiffAcceptsFaithfulEdits(elements, edges, parsed);
    AcceptedEntriesAreAccurate(elements, edges, parsed, map[]);
    OpsOnce(Entries(parsed, None, 0), ById(elements), ParentMap(edges));
  }

  /** Of two operations the first is for an element written earlier, or renames the one that the second moves. */
  ghost predicate InReadingOrder(a: GraphOp, b: GraphOp, entries: seq<Entry>) {
    exists i: nat, j: nat :: i <= j < |entries| && entries[i].ref == OpRef(a) && entries[j].ref == OpRef(b)
                             && (i == j ==> a.Rename? && b.Reparent?)
  }

  lemma OrderLater(a: GraphOp, b: GraphOp, entries: seq<Entry>)
    requires entries != [] && InReadingOrder(a, b, entries[1..])
    ensures InReadingOrder(a, b, entries)
  {
    var rest := entries[1..];
    var i: nat, j: nat :| i <= j < |rest| && rest[i].ref == OpRef(a) && rest[j].ref == OpRef(b)
                          && (i == j ==> a.Rename? && b.Reparent?);
    assert entries[i + 1] == rest[i] && entries[j + 1] == rest[j];
  }

  lemma OrderFromFirst(a: GraphOp, b: GraphOp, entries: seq<Entry>)
    requires entries != [] && OpRef(a) == entries[0].ref && OpRef(b) in RefSet(entries[1..])
    ensures InReadingOrder(a, b, entries)
  {
    var rest := entries[1..];
    var e :| e in rest && e.ref == OpRef(b);
    var j :| 0 <= j < |rest| && rest[j] == e;
    assert entries[j + 1].ref == OpRef(b) && entries[0].ref == OpRef(a);
  }

  lemma OwnInOrder(entries: seq<Entry>, byId: map<Id, ModelElement>, parentOf: map<Id, Id>)
    requires entries != []
    ensures var own := EntryOps(entries[0], byId, parentOf);
            && (forall op :: op in own ==> OpRef(op) == entries[0].ref)
            && forall m, n :: 0 <= m < n < |own| ==> InReadingOrder(own[m], own[n], entries)
  {
    var own := EntryOps(entries[0], byId, parentOf);
    if |own| > 1 {
      assert own[0].Rename? && own[1].Reparent? && |own| == 2;
      assert entries[0].ref == OpRef(own[0]) && entries[0].ref == OpRef(own[1]);
    }
  }

  lemma {:induction false} OpsRise(entries: seq<Entry>, byId: map<Id, ModelElement>, parentOf: map<Id, Id>)
    ensures var ops := OpsFor(entries, byId, parentOf);
            && (forall op :: op in ops ==> OpRef(op) in RefSet(entries))
            && forall m, n :: 0 <= m < n < |ops| ==> InReadingOrder(ops[m], ops[n], entries)
    decreases |entries|
  {
    hide InReadingOrder, EntryOps, OpRef;
    if entries != [] {
      var rest := entries[1..];
      var own, others := EntryOps(entries[0], byId, parentOf), OpsFor(rest, byId, parentOf);
      var ops := own + others;
      OpsRise(rest, byId, parentOf);
      OwnInOrder(entries, byId, parentOf);
      assert entries[0] in entries && forall e :: e in rest ==> e in entries;
      forall m, n | 0 <= m < n < |ops|
        ensures InReadingOrder(ops[m], ops[n], entries)
      {
        if m >= |own| {
          OrderLater(ops[m], ops[n], entries);
        } else if n >= |own| {
          assert ops[m] == own[m] && ops[n] == others[n - |own|];
          assert own[m] in own && others[n - |own|] in others;
          OrderFromFirst(ops[m], ops[n], entries);
        } else {
          assert ops[m] == own[m] && ops[n] == own[n];
        }
      }
    }
  }

  /** The operations come in reading order, an element's renaming before its move. */
  lemma AcceptedOpsInOrder(elements: seq<ModelElement>, edges: seq<Edge>, parsed: seq<ParsedElement>, m: nat, n: nat)
    requires Diffable(elements, edges) && Diff(elements, edges, parsed).Accepted?
    requires m < n < |Diff(elements, edges, parsed).ops|
    ensures var ops := Diff(elements, edges, parsed).ops;
            InReadingOrder(ops[m], ops[n], Entries(parsed, None, 0))
  {
    hide ById, ParentMap, SingleParent, Entries, Diff, NoTemps, Distinct, Refs, OpsFor, InReadingOrder;
    DiffAcceptsFaithfulEdits(elements, edges, parsed);
    OpsRise(Entries(parsed, None, 0), ById(elements), ParentMap(edges));
  }
}
