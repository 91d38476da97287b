/** Which edits a diff accepts, and the operations it then gives. */
module DiffAcceptance {
  import opened SysmlModel
  import opened TextSyntax
  import opened Containment
  import opened GraphOps
  import opened TextDiff

  datatype Anchored = Anchored(id: Id, kind: NodeKind)

  /** The anchors of a document, in reading order. */
  function Anchors(ps: seq<ParsedElement>): seq<Anchored>
    decreases ps
  {
    if ps == [] then []
    else
      (if ps[0].anchorId.Some? then [Anchored(ps[0].anchorId.value, ps[0].kind)] else []) +
      (Anchors(ps[0].children) + Anchors(ps[1..]))
  }

  function AnchorIds(anchors: seq<Anchored>): seq<Id> {
    seq(|anchors|, i requires 0 <= i < |anchors| => anchors[i].id)
  }

  /** The edit keeps every element of the model exactly once, with its kind, and knows no other id. */
  ghost predicate Faithful(elements: seq<ModelElement>, parsed: seq<ParsedElement>) {
    var anchors := Anchors(parsed);
    && Distinct(AnchorIds(anchors))
    && (forall id :: id in AnchorIds(anchors) <==> id in ById(elements))
    && (forall a :: a in anchors ==> a.id in ById(elements) && ById(elements)[a.id].kind == a.kind)
  }

  /** One element of the edited document: its id (a temporary one if it is new), and where it goes. */
  datatype Entry = Entry(ref: Id, known: bool, kind: NodeKind, name: string, parent: Option<Id>)

  function NewCount(ps: seq<ParsedElement>): nat
    decreases ps
  {
    if ps == [] then 0
    else (if ps[0].anchorId.Some? then 0 else 1) + NewCount(ps[0].children) + NewCount(ps[1..])
  }

  function RefOf(p: ParsedElement, k: nat): Id {
    if p.anchorId.Some? then p.anchorId.value else TempId(k)
  }

  /** The document in reading order; new elements are numbered from `k`. */
  function Entries(ps: seq<ParsedElement>, parent: Option<Id>, k: nat): seq<Entry>
    decreases ps
  {
    if ps == [] then []
    else
      var p, ref := ps[0], RefOf(ps[0], k);
      var k' := if p.anchorId.Some? then k else k + 1;
      [Entry(ref, p.anchorId.Some?, p.kind, p.name, parent)] +
      (Entries(p.children, Some(ref), k') + Entries(ps[1..], parent, k' + NewCount(p.children)))
  }

  function EntryOps(e: Entry, byId: map<Id, ModelElement>, parentOf: map<Id, Id>): seq<GraphOp> {
    if !e.known then [Create(e.ref, e.kind, e.name, e.parent)]
    else if e.ref in byId then Adjust(e.ref, byId[e.ref], Lookup(parentOf, e.ref), e.name, e.parent)
    else []
  }

  function OpsFor(entries: seq<Entry>, byId: map<Id, ModelElement>, parentOf: map<Id, Id>): seq<GraphOp> {
    if entries == [] then [] else EntryOps(entries[0], byId, parentOf) + OpsFor(entries[1..], byId, parentOf)
  }

  lemma {:induction false} OpsForConcat(a: seq<Entry>, b: seq<Entry>, byId: map<Id, ModelElement>,
                                        parentOf: map<Id, Id>)
    ensures OpsFor(a + b, byId, parentOf) == OpsFor(a, byId, parentOf) + OpsFor(b, byId, parentOf)
  {
    hide EntryOps;
    if a == [] {
      assert [] + b == b;
    } else {
      assert (a + b)[0] == a[0] && (a + b)[1..] == a[1..] + b;
      OpsForConcat(a[1..], b, byId, parentOf);
    }
  }

  // ----- The walk -----

  predicate Passes(a: Anchored, seen: set<Id>, byId: map<Id, ModelElement>) {
    a.id !in seen && a.id in byId && byId[a.id].kind == a.kind
  }

  function IdSet(anchors: seq<Anchored>): set<Id> {
    set a | a in anchors :: a.id
  }

  /** Read one after another, no anchor is refused. */
  predicate Clean(anchors: seq<Anchored>, seen: set<Id>, byId: map<Id, ModelElement>) {
    anchors == [] ||
    (Passes(anchors[0], seen, byId) && Clean(anchors[1..], seen + {anchors[0].id}, byId))
  }

  lemma {:induction false} CleanConcat(a: seq<Anchored>, b: seq<Anchored>, seen: set<Id>, byId: map<Id, ModelElement>)
    ensures Clean(a + b, seen, byId) <==> Clean(a, seen, byId) && Clean(b, seen + IdSet(a), byId)
    ensures IdSet(a + b) == IdSet(a) + IdSet(b)
    decreases |a|
  {
    hide Passes;
    if a == [] {
      assert [] + b == b;
      assert seen + IdSet(a) == seen;
    } else {
      assert (a + b)[0] == a[0] && (a + b)[1..] == a[1..] + b;
      CleanConcat(a[1..], b, seen + {a[0].id}, byId);
      assert a == [a[0]] + a[1..];
      assert seen + IdSet(a) == (seen + {a[0].id}) + IdSet(a[1..]);
    }
  }

  function Own(p: ParsedElement): seq<Anchored> {
    if p.anchorId.Some? then [Anchored(p.anchorId.value, p.kind)] else []
  }

  lemma OwnIsClean(p: ParsedElement, seen: set<Id>, byId: map<Id, ModelElement>)
    ensures Clean(Own(p), seen, byId) <==> p.anchorId.Some? ==> Passes(Anchored(p.anchorId.value, p.kind), seen, byId)
  {
    hide Passes;
    if p.anchorId.Some? {
      assert Own(p)[1..] == [];
      assert Clean([], seen + {p.anchorId.value}, byId);
    }
  }

  /** The state in which an accepted element hands over to its children. */
  function Entered(p: ParsedElement, parent: Option<Id>, byId: map<Id, ModelElement>, parentOf: map<Id, Id>,
                   st: WalkState): WalkState {
    st.(ops := st.ops + EntryOps(Entry(RefOf(p, st.counter), p.anchorId.Some?, p.kind, p.name, parent), byId, parentOf),
        seen := st.seen + IdSet(Own(p)),
        counter := if p.anchorId.Some? then st.counter else st.counter + 1)
  }

  lemma WalkEnters(p: ParsedElement, parent: Option<Id>, byId: map<Id, ModelElement>, parentOf: map<Id, Id>,
                   st: WalkState)
    requires Clean(Own(p), st.seen, byId)
    ensures Walk(p, parent, byId, parentOf, st)
         == WalkAll(p.children, Some(RefOf(p, st.counter)), byId, parentOf, Entered(p, parent, byId, parentOf, st))
  {
    hide WalkAll, Adjust, TempId, Lookup;
    if p.anchorId.Some? {
      assert IdSet(Own(p)) == {p.anchorId.value};
    } else {
      assert IdSet(Own(p)) == {};
      assert st.seen + {} == st.seen;
    }
  }

  lemma {:induction false} ErrorsGrow(ps: seq<ParsedElement>, parent: Option<Id>, byId: map<Id, ModelElement>,
                                      parentOf: map<Id, Id>, st: WalkState)
    ensures |WalkAll(ps, parent, byId, parentOf, st).errors| >= |st.errors|
    decreases ps, 2
  {
    hide TempId, Adjust, Lookup;
    if ps != [] {
      var p := ps[0];
      WalkGrows(p, parent, byId, parentOf, st);
      ErrorsGrow(ps[1..], parent, byId, parentOf, Walk(p, parent, byId, parentOf, st));
    }
  }

  lemma {:induction false} WalkGrows(p: ParsedElement, parent: Option<Id>, byId: map<Id, ModelElement>,
                                     parentOf: map<Id, Id>, st: WalkState)
    ensures |Walk(p, parent, byId, parentOf, st).errors| >= |st.errors|
    ensures !Clean(Own(p), st.seen, byId) ==> |Walk(p, parent, byId, parentOf, st).errors| > |st.errors|
    decreases p, 1
  {
    hide TempId, Adjust, Lookup, WalkAll;
    OwnIsClean(p, st.seen, byId);
    match p.anchorId {
      case Some(id) =>
        if id !in st.seen {
          var st1 := st.(seen := st.seen + {id});
          if id !in byId {
            ErrorsGrow(p.children, None, byId, parentOf, st1.(errors := st1.errors + [UnknownAnchor(id, p.span)]));
          } else if byId[id].kind != p.kind {
            ErrorsGrow(p.children, Some(id), byId, parentOf,
                       st1.(errors := st1.errors + [KindChanged(id, byId[id].kind, p.kind, p.span)]));
          } else {
            ErrorsGrow(p.children, Some(id), byId, parentOf,
                       st1.(ops := st1.ops + Adjust(id, byId[id], Lookup(parentOf, id), p.name, parent)));
          }
        }
      case None =>
        var id := TempId(st.counter);
        ErrorsGrow(p.children, Some(id), byId, parentOf,
                   st.(ops := st.ops + [Create(id, p.kind, p.name, parent)], counter := st.counter + 1));
    }
  }

  /** Without an error, a walk has seen clean anchors and produced the operations of its entries. */
  lemma {:induction false} WalkAllOutcome(ps: seq<ParsedElement>, parent: Option<Id>, byId: map<Id, ModelElement>,
                                          parentOf: map<Id, Id>, st: WalkState)
    ensures var end := WalkAll(ps, parent, byId, parentOf, st);
            && (|end.errors| == |st.errors| <==> Clean(Anchors(ps), st.seen, byId))
            && (Clean(Anchors(ps), st.seen, byId) ==> end == Walked(ps, parent, byId, parentOf, st))
    decreases ps
  {
    if ps == [] {
      assert st.seen + IdSet([]) == st.seen;
      assert st.ops + [] == st.ops;
    } else {
      hide WalkAll, Walk, Clean, IdSet, Entered, Walked, Anchors, Entries;
      var p, rest := ps[0], ps[1..];
      WalkAllSplits(ps, parent, byId, parentOf, st);
      AnchorsSplit(ps);
      CleanConcat(Own(p), Anchors(p.children) + Anchors(rest), st.seen, byId);
      CleanConcat(Anchors(p.children), Anchors(rest), st.seen + IdSet(Own(p)), byId);
      WalkGrows(p, parent, byId, parentOf, st);
      var mid := Walk(p, parent, byId, parentOf, st);
      ErrorsGrow(rest, parent, byId, parentOf, mid);
      if Clean(Own(p), st.seen, byId) {
        var entered := Entered(p, parent, byId, parentOf, st);
        var ref := Some(RefOf(p, st.counter));
        EnteredIs(p, parent, byId, parentOf, st);
        WalkEnters(p, parent, byId, parentOf, st);
        WalkAllOutcome(p.children, ref, byId, parentOf, entered);
        WalkAllOutcome(rest, parent, byId, parentOf, mid);
        if Clean(Anchors(p.children), entered.seen, byId) {
          WalkedIs(p.children, ref, byId, parentOf, entered);
          WalkedSplits(ps, parent, byId, parentOf, st);
        }
      }
    }
  }

  /** The state after a walk that refused nothing. */
  function Walked(ps: seq<ParsedElement>, parent: Option<Id>, byId: map<Id, ModelElement>, parentOf: map<Id, Id>,
                  st: WalkState): WalkState {
    WalkState(st.ops + OpsFor(Entries(ps, parent, st.counter), byId, parentOf), st.errors,
              st.seen + IdSet(Anchors(ps)), st.counter + NewCount(ps))
  }

  lemma WalkedIs(ps: seq<ParsedElement>, parent: Option<Id>, byId: map<Id, ModelElement>, parentOf: map<Id, Id>,
                 st: WalkState)
    ensures Walked(ps, parent, byId, parentOf, st).seen == st.seen + IdSet(Anchors(ps))
    ensures Walked(ps, parent, byId, parentOf, st).errors == st.errors
  {
  }

  lemma EnteredIs(p: ParsedElement, parent: Option<Id>, byId: map<Id, ModelElement>, parentOf: map<Id, Id>,
                  st: WalkState)
    ensures Entered(p, parent, byId, parentOf, st).seen == st.seen + IdSet(Own(p))
    ensures Entered(p, parent, byId, parentOf, st).errors == st.errors
  {
  }

  lemma WalkAllSplits(ps: seq<ParsedElement>, parent: Option<Id>, byId: map<Id, ModelElement>, parentOf: map<Id, Id>,
                      st: WalkState)
    requires ps != []
    ensures WalkAll(ps, parent, byId, parentOf, st)
         == WalkAll(ps[1..], parent, byId, parentOf, Walk(ps[0], parent, byId, parentOf, st))
  {
    hide Walk;
  }

  lemma AnchorsSplit(ps: seq<ParsedElement>)
    requires ps != []
    ensures Anchors(ps) == Own(ps[0]) + (Anchors(ps[0].children) + Anchors(ps[1..]))
  {
  }

  lemma WalkedSplits(ps: seq<ParsedElement>, parent: Option<Id>, byId: map<Id, ModelElement>, parentOf: map<Id, Id>,
                     st: WalkState)
    requires ps != []
    ensures var entered := Entered(ps[0], parent, byId, parentOf, st);
            var mid := Walked(ps[0].children, Some(RefOf(ps[0], st.counter)), byId, parentOf, entered);
            Walked(ps, parent, byId, parentOf, st) == Walked(ps[1..], parent, byId, parentOf, mid)
  {
    hide TempId, EntryOps, Anchors, Entries, OpsFor, IdSet;
    var p, rest := ps[0], ps[1..];
    var entered := Entered(p, parent, byId, parentOf, st);
    var e := Entry(RefOf(p, st.counter), p.anchorId.Some?, p.kind, p.name, parent);
    var inner := Entries(p.children, Some(e.ref), entered.counter);
    var outer := Entries(rest, parent, entered.counter + NewCount(p.children));
    EntriesSplit(ps, parent, st.counter);
    OpsForCons(e, inner + outer, byId, parentOf);
    OpsForConcat(inner, outer, byId, parentOf);
    assert st.ops + (EntryOps(e, byId, parentOf) + (OpsFor(inner, byId, parentOf) + OpsFor(outer, byId, parentOf)))
        == ((st.ops + EntryOps(e, byId, parentOf)) + OpsFor(inner, byId, parentOf)) + OpsFor(outer, byId, parentOf);
    AnchorsSplit(ps);
    CleanConcat(Own(p), Anchors(p.children) + Anchors(rest), {}, map[]);
    CleanConcat(Anchors(p.children), Anchors(rest), {}, map[]);
    assert st.seen + (IdSet(Own(p)) + (IdSet(Anchors(p.children)) + IdSet(Anchors(rest))))
        == ((st.seen + IdSet(Own(p))) + IdSet(Anchors(p.children))) + IdSet(Anchors(rest));
  }

  lemma EntriesSplit(ps: seq<ParsedElement>, parent: Option<Id>, k: nat)
    requires ps != []
    ensures var p := ps[0];
            var k' := if p.anchorId.Some? then k else k + 1;
            Entries(ps, parent, k)
            == [Entry(RefOf(p, k), p.anchorId.Some?, p.kind, p.name, parent)] +
               (Entries(p.children, Some(RefOf(p, k)), k') + Entries(ps[1..], parent, k' + NewCount(p.children)))
  {
    hide TempId;
  }

  lemma OpsForCons(e: Entry, rest: seq<Entry>, byId: map<Id, ModelElement>, parentOf: map<Id, Id>)
    ensures OpsFor([e] + rest, byId, parentOf) == EntryOps(e, byId, parentOf) + OpsFor(rest, byId, parentOf)
  {
    hide EntryOps;
    assert ([e] + rest)[1..] == rest;
  }

  // ----- The diff as a whole -----

  lemma {:induction false} NoneMissing(elements: seq<ModelElement>, seen: set<Id>)
    ensures MissingFrom(elements, seen) == [] <==> forall id :: id in ById(elements) ==> id in seen
  {
    if elements != [] {
      NoneMissing(elements[..|elements| - 1], seen);
    }
  }

  lemma {:induction false} CleanInClosedForm(anchors: seq<Anchored>, seen: set<Id>, byId: map<Id, ModelElement>)
    ensures Clean(anchors, seen, byId) <==>
            && Distinct(AnchorIds(anchors))
            && (forall a :: a in anchors ==> Passes(a, seen, byId))
    decreases |anchors|
  {
    if anchors != [] {
      var a, rest := anchors[0], anchors[1..];
      CleanInClosedForm(rest, seen + {a.id}, byId);
      assert anchors == [a] + rest;
      var ids := AnchorIds(anchors);
      assert ids == [a.id] + AnchorIds(rest);
      if Clean(anchors, seen, byId) {
        forall i, j | 0 <= i < j < |ids|
          ensures ids[i] != ids[j]
        {
          assert Passes(rest[j - 1], seen + {a.id}, byId);
          if i > 0 {
            assert AnchorIds(rest)[i - 1] != AnchorIds(rest)[j - 1];
          }
        }
        forall x | x in anchors
          ensures Passes(x, seen, byId)
        {
          if x != a {
            assert Passes(x, seen + {a.id}, byId);
          }
        }
      }
      if Distinct(ids) && forall x :: x in anchors ==> Passes(x, seen, byId) {
        forall i, j | 0 <= i < j < |rest|
          ensures AnchorIds(rest)[i] != AnchorIds(rest)[j]
        {
          assert ids[i + 1] != ids[j + 1];
        }
        forall x | x in rest
          ensures Passes(x, seen + {a.id}, byId)
        {
          var i :| 0 <= i < |rest| && rest[i] == x;
          assert ids[0] != ids[i + 1];
          assert x in anchors;
        }
      }
    }
  }

  /** A diff accepts an edit exactly when it is faithful, and then gives its entries' operations. */
  lemma DiffAcceptsFaithfulEdits(elements: seq<ModelElement>, edges: seq<Edge>, parsed: seq<ParsedElement>)
    ensures Diff(elements, edges, parsed).Accepted? <==> Faithful(elements, parsed)
    ensures Diff(elements, edges, parsed).Accepted? ==>
              Diff(elements, edges, parsed).ops == OpsFor(Entries(parsed, None, 0), ById(elements), ParentMap(edges))
  {
    hide WalkAll, Clean, ParentMap, ById, MissingFrom, OpsFor, Entries, Anchors;
    var byId, parentOf := ById(elements), ParentMap(edges);
    var end := WalkAll(parsed, None, byId, parentOf, Start());
    var anchors := Anchors(parsed);
    WalkAllOutcome(parsed, None, byId, parentOf, Start());
    NoneMissing(elements, end.seen);
    CleanInClosedForm(anchors, {}, byId);
    assert forall id :: id in IdSet(anchors) <==> id in AnchorIds(anchors) by {
      forall id | id in IdSet(anchors)
        ensures id in AnchorIds(anchors)
      {
        var i :| 0 <= i < |anchors| && anchors[i].id == id;
        assert AnchorIds(anchors)[i] == id;
      }
    }
    if Clean(anchors, {}, byId) {
      assert end.seen == IdSet(anchors);
      assert [] + OpsFor(Entries(parsed, None, 0), byId, parentOf) == OpsFor(Entries(parsed, None, 0), byId, parentOf);
    }
  }
}
