/** The errors a rejected edit is answered with: each names something that is wrong with the document. */
module DiffErrors {
  import opened SysmlModel
  import opened TextSyntax
  import opened Containment
  import opened GraphOps
  import opened TextDiff
  import opened DiffAcceptance

  ghost predicate Twice(anchors: seq<Anchored>, id: Id) {
    exists i, j :: 0 <= i < j < |anchors| && anchors[i].id == id && anchors[j].id == id
  }

  /** A duplicate occurs twice, a changed kind differs from the model's, an unknown id is not in the model,
      and a missing element is listed in the model. */
  ghost predicate IsReal(e: TextualError, anchors: seq<Anchored>, byId: map<Id, ModelElement>) {
    match e
    case DuplicateAnchor(id, _) => Twice(anchors, id)
    case KindChanged(id, was, now, _) => id in byId && byId[id].kind == was && was != now &&
      Anchored(id, now) in anchors
    case UnknownAnchor(id, _) => id !in byId && id in IdSet(anchors)
    case MissingElement(id, _) => id in byId
  }

  ghost predicate AllReal(errors: seq<TextualError>, anchors: seq<Anchored>, byId: map<Id, ModelElement>) {
    forall e :: e in errors ==> IsReal(e, anchors, byId)
  }

  /** What has been seen was read before. */
  ghost predicate SeenBefore(st: WalkState, before: seq<Anchored>) {
    st.seen <= IdSet(before)
  }

  lemma IdSetConcat(a: seq<Anchored>, b: seq<Anchored>)
    ensures IdSet(a + b) == IdSet(a) + IdSet(b)
  {
  }

  lemma OneMoreReal(errors: seq<TextualError>, e: TextualError, anchors: seq<Anchored>, byId: map<Id, ModelElement>)
    requires AllReal(errors, anchors, byId) && IsReal(e, anchors, byId)
    ensures AllReal(errors + [e], anchors, byId)
  {
    hide IsReal;
  }

  lemma SecondIsDuplicate(before: seq<Anchored>, a: Anchored, after: seq<Anchored>)
    requires a.id in IdSet(before)
    ensures Twice(before + ([a] + after), a.id)
  {
    var all := before + ([a] + after);
    var i :| 0 <= i < |before| && before[i].id == a.id;
    assert all[i].id == a.id && all[|before|].id == a.id;
  }

  lemma AnchorIsThere(before: seq<Anchored>, a: Anchored, after: seq<Anchored>)
    ensures a in before + ([a] + after) && a.id in IdSet(before + ([a] + after))
  {
    assert (before + ([a] + after))[|before|] == a;
  }

  /** An element's own anchor, and the state in which its children are walked. */
  lemma WalkDescends(p: ParsedElement, parent: Option<Id>, byId: map<Id, ModelElement>, parentOf: map<Id, Id>,
                     st: WalkState, before: seq<Anchored>, after: seq<Anchored>)
    returns (descends: bool, ref: Option<Id>, inner: WalkState)
    requires SeenBefore(st, before) && AllReal(st.errors, before + (Own(p) + after), byId)
    ensures descends ==> Walk(p, parent, byId, parentOf, st) == WalkAll(p.children, ref, byId, parentOf, inner)
    ensures !descends ==> Walk(p, parent, byId, parentOf, st) == inner
    ensures SeenBefore(inner, before + Own(p)) && AllReal(inner.errors, before + (Own(p) + after), byId)
  {
    hide WalkAll, Adjust, TempId, Lookup, IsReal, AllReal;
    IdSetConcat(before, Own(p));
    match p.anchorId {
      case None =>
        var id := TempId(st.counter);
        descends, ref := true, Some(id);
        inner := st.(ops := st.ops + [Create(id, p.kind, p.name, parent)], counter := st.counter + 1);
      case Some(id) =>
        var a := Anchored(id, p.kind);
        AnchorIsThere(before, a, after);
        if id in st.seen {
          SecondIsDuplicate(before, a, after);
          RealDuplicate(id, p, before, after, byId);
          OneMoreReal(st.errors, DuplicateAnchor(id, p.span), before + (Own(p) + after), byId);
          descends, ref, inner := false, None, st.(errors := st.errors + [DuplicateAnchor(id, p.span)]);
        } else {
          var seen := st.(seen := st.seen + {id});
          assert id in IdSet(Own(p)) by { assert Own(p)[0] == a; }
          descends := true;
          if id !in byId {
            RealUnknown(id, p, before, after, byId);
            OneMoreReal(st.errors, UnknownAnchor(id, p.span), before + (Own(p) + after), byId);
            ref, inner := None, seen.(errors := st.errors + [UnknownAnchor(id, p.span)]);
          } else if byId[id].kind != p.kind {
            RealChange(id, p, before, after, byId);
            OneMoreReal(st.errors, KindChanged(id, byId[id].kind, p.kind, p.span), before + (Own(p) + after), byId);
            ref, inner := Some(id), seen.(errors := st.errors + [KindChanged(id, byId[id].kind, p.kind, p.span)]);
          } else {
            ref, inner := Some(id), seen.(ops := st.ops + Adjust(id, byId[id], Lookup(parentOf, id), p.name, parent));
          }
        }
    }
  }

  lemma RealDuplicate(id: Id, p: ParsedElement, before: seq<Anchored>, after: seq<Anchored>,
                      byId: map<Id, ModelElement>)
    requires p.anchorId == Some(id) && Twice(before + ([Anchored(id, p.kind)] + after), id)
    ensures IsReal(DuplicateAnchor(id, p.span), before + (Own(p) + after), byId)
  {
    hide Twice;
  }

  lemma RealUnknown(id: Id, p: ParsedElement, before: seq<Anchored>, after: seq<Anchored>, byId: map<Id, ModelElement>)
    requires p.anchorId == Some(id) && id !in byId && id in IdSet(before + ([Anchored(id, p.kind)] + after))
    ensures IsReal(UnknownAnchor(id, p.span), before + (Own(p) + after), byId)
  {
    hide IdSet;
  }

  lemma RealChange(id: Id, p: ParsedElement, before: seq<Anchored>, after: seq<Anchored>, byId: map<Id, ModelElement>)
    requires p.anchorId == Some(id) && id in byId && byId[id].kind != p.kind
    requires Anchored(id, p.kind) in before + ([Anchored(id, p.kind)] + after)
    ensures IsReal(KindChanged(id, byId[id].kind, p.kind, p.span), before + (Own(p) + after), byId)
  {
  }

  lemma Regroup(before: seq<Anchored>, own: seq<Anchored>, inner: seq<Anchored>, outer: seq<Anchored>,
                after: seq<Anchored>)
    ensures before + ((own + (inner + outer)) + after) == before + (own + (inner + (outer + after)))
    ensures before + (own + (inner + (outer + after))) == (before + own) + (inner + (outer + after))
    ensures (before + own) + (inner + (outer + after)) == ((before + own) + inner) + (outer + after)
    ensures ((before + own) + inner) + outer == before + (own + (inner + outer))
  {
  }

  lemma SeenStays(st: WalkState, before: seq<Anchored>, more: seq<Anchored>)
    requires SeenBefore(st, before)
    ensures SeenBefore(st, before + more)
  {
    IdSetConcat(before, more);
  }

  /** Every error a walk adds is real, wherever in the document it was found. */
  lemma {:induction false} WalkErrorsAreReal(ps: seq<ParsedElement>, parent: Option<Id>, byId: map<Id, ModelElement>,
                                             parentOf: map<Id, Id>, st: WalkState, before: seq<Anchored>,
                                             after: seq<Anchored>)
    requires SeenBefore(st, before) && AllReal(st.errors, before + (Anchors(ps) + after), byId)
    ensures var end := WalkAll(ps, parent, byId, parentOf, st);
            SeenBefore(end, before + Anchors(ps)) && AllReal(end.errors, before + (Anchors(ps) + after), byId)
    decreases ps
  {
    hide *;
    if ps == [] {
      NothingWalked(ps, parent, byId, parentOf, st);
      SeenStays(st, before, Anchors(ps));
    } else {
      var p, rest := ps[0], ps[1..];
      var inner, outer := Anchors(p.children), Anchors(rest);
      AnchorsSplit(ps);
      WalkAllSplits(ps, parent, byId, parentOf, st);
      Regroup(before, Own(p), inner, outer, after);
      var mid := Walk(p, parent, byId, parentOf, st);
      var descends, ref, entered := WalkDescends(p, parent, byId, parentOf, st, before, inner + (outer + after));
      if descends {
        WalkErrorsAreReal(p.children, ref, byId, parentOf, entered, before + Own(p), outer + after);
      } else {
        SeenStays(entered, before + Own(p), inner);
      }
      WalkErrorsAreReal(rest, parent, byId, parentOf, mid, (before + Own(p)) + inner, after);
    }
  }

  lemma NothingWalked(ps: seq<ParsedElement>, parent: Option<Id>, byId: map<Id, ModelElement>, parentOf: map<Id, Id>,
                      st: WalkState)
    requires ps == []
    ensures WalkAll(ps, parent, byId, parentOf, st) == st
  {
  }

  lemma {:induction false} MissingAreReal(elements: seq<ModelElement>, seen: set<Id>, anchors: seq<Anchored>)
    ensures AllReal(MissingFrom(elements, seen), anchors, ById(elements))
    ensures forall e :: e in MissingFrom(elements, seen) ==> e.MissingElement? && e.id !in seen
    ensures forall x :: x in elements && x.id !in seen ==> MissingElement(x.id, x.name) in MissingFrom(elements, seen)
    decreases |elements|
  {
    if elements != [] {
      var init := elements[..|elements| - 1];
      MissingAreReal(init, seen, anchors);
      assert elements == init + [elements[|elements| - 1]];
    }
  }

  /** Every error of a rejected edit is real, and every element the document does not anchor is reported. */
  lemma RejectionsAreReal(elements: seq<ModelElement>, edges: seq<Edge>, parsed: seq<ParsedElement>)
    requires Diff(elements, edges, parsed).Rejected?
    ensures AllReal(Diff(elements, edges, parsed).errors, Anchors(parsed), ById(elements))
    ensures forall x :: x in elements && x.id !in IdSet(Anchors(parsed)) ==>
      MissingElement(x.id, x.name) in Diff(elements, edges, parsed).errors
  {
    hide WalkAll, Anchors, ById, ParentMap, MissingFrom, IsReal, IdSet;
    var end := WalkAll(parsed, None, ById(elements), ParentMap(edges), Start());
    assert [] + (Anchors(parsed) + []) == Anchors(parsed) && [] + Anchors(parsed) == Anchors(parsed);
    WalkErrorsAreReal(parsed, None, ById(elements), ParentMap(edges), Start(), [], []);
    MissingAreReal(elements, end.seen, Anchors(parsed));
  }
}
