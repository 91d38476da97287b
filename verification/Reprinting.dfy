/** Printing is canonical: what is printed, parsed, read as elements and edges and printed again is the same text. */
module Reprinting {
  import opened SysmlModel
  import opened Ordering
  import opened TextSyntax
  import opened Containment
  import opened TextPrinter
  import opened TextRoundTrip
  import opened DiffAcceptance
  import opened DiffRealisation
  import opened PrintedText

  /** Each item once, where it occurs first. */
  function Once<T(==)>(s: seq<T>): seq<T> {
    if s == [] then []
    else
      var init, last := Once(s[..|s| - 1]), s[|s| - 1];
      if last in init then init else init + [last]
  }

  lemma {:induction false} OnceIs<T>(s: seq<T>)
    ensures Distinct(Once(s)) && forall x :: x in Once(s) <==> x in s
    decreases |s|
  {
    if s != [] {
      OnceIs(s[..|s| - 1]);
      assert s == s[..|s| - 1] + [s[|s| - 1]];
    }
  }

  function ElementRow(e: Entry): ModelElement {
    ModelElement(e.ref, e.kind, e.name, true, Human)
  }

  function ElementRows(entries: seq<Entry>): seq<ModelElement> {
    seq(|entries|, i requires 0 <= i < |entries| => ElementRow(entries[i]))
  }

  function EdgeRows(entries: seq<Entry>): seq<Edge> {
    if entries == [] then []
    else
      var e := entries[|entries| - 1];
      EdgeRows(entries[..|entries| - 1]) + if e.parent.Some? then [Edge(e.parent.value, e.ref, Contains)] else []
  }

  /** The elements and the edges a document shows, in reading order, each once. */
  function ShownElements(parsed: seq<ParsedElement>): seq<ModelElement> {
    Once(ElementRows(Entries(parsed, None, 0)))
  }

  function ShownEdges(parsed: seq<ParsedElement>): seq<Edge> {
    Once(EdgeRows(Entries(parsed, None, 0)))
  }

  lemma {:induction false} EdgeRowsAre(entries: seq<Entry>, x: Edge)
    ensures x in EdgeRows(entries) <==>
            x.kind == Contains && exists e :: e in entries && e.parent == Some(x.source) && e.ref == x.target
    decreases |entries|
  {
    if entries != [] {
      var init, last := entries[..|entries| - 1], entries[|entries| - 1];
      EdgeRowsAre(init, x);
      assert entries == init + [last];
    }
  }

  lemma ElementRowsAre(entries: seq<Entry>, x: ModelElement)
    ensures x in ElementRows(entries) <==> exists e :: e in entries && x == ElementRow(e)
  {
    var rows := ElementRows(entries);
    if x in rows {
      var i :| 0 <= i < |rows| && rows[i] == x;
      assert entries[i] in entries;
    }
    if e :| e in entries && x == ElementRow(e) {
      var i :| 0 <= i < |entries| && entries[i] == e;
      assert rows[i] == x;
    }
  }

  // ----- The graph the printed text shows -----

  /** The rows of a graph's printed entries, each once. */
  ghost predicate Shows(elements: seq<ModelElement>, edges: seq<Edge>, elements': seq<ModelElement>, edges': seq<Edge>)
    requires Printable(elements, edges)
  {
    && elements' == Once(ElementRows(Printed(elements, edges)))
    && edges' == Once(EdgeRows(Printed(elements, edges)))
  }

  lemma ShownEdgesAre(elements: seq<ModelElement>, edges: seq<Edge>, elements': seq<ModelElement>, edges': seq<Edge>)
    requires Printable(elements, edges) && Shows(elements, edges, elements', edges')
    ensures Distinct(edges') && forall x :: x in edges' <==> x in edges && x.kind == Contains
  {
    hide ById, Distinct, Printable, Printed, EntryFor, SortedRoots, Once, EdgeRows, ElementRows;
    var printed := Printed(elements, edges);
    OnceIs(EdgeRows(printed));
    EveryParentIsPrinted(elements, edges);
    PrintedRepeats(elements, edges);
    forall x
      ensures x in edges' <==> x in edges && x.kind == Contains
    {
      EdgeRowsAre(printed, x);
      if x in edges' {
        var e :| e in printed && e.parent == Some(x.source) && e.ref == x.target;
        assert Repeats(elements, edges, SortedRoots(elements, edges), None, e);
      }
      if x in edges && x.kind == Contains {
        assert x == Edge(x.source, x.target, Contains);
        EntryForIs(elements, x.target, Some(x.source));
      }
    }
  }

  lemma ShownElementsAre(elements: seq<ModelElement>, edges: seq<Edge>, elements': seq<ModelElement>, edges': seq<Edge>)
    requires Printable(elements, edges) && Shows(elements, edges, elements', edges')
    ensures Distinct(elements')
    ensures forall x :: x in elements' ==>
              x.id in ById(elements) && x.kind == ById(elements)[x.id].kind && x.name == ById(elements)[x.id].name &&
              x == ModelElement(x.id, x.kind, x.name, true, Human)
    ensures forall id :: id in ById(elements) ==> exists x :: x in elements' && x.id == id
  {
    hide ById, Distinct, Printable, Printed, SortedRoots, Once, EdgeRows, ElementRows;
    var printed := Printed(elements, edges);
    OnceIs(ElementRows(printed));
    EveryParentIsPrinted(elements, edges);
    PrintedRepeats(elements, edges);
    forall x | x in elements'
      ensures x.id in ById(elements) && x.kind == ById(elements)[x.id].kind && x.name == ById(elements)[x.id].name
      ensures x == ModelElement(x.id, x.kind, x.name, true, Human)
    {
      ElementRowsAre(printed, x);
      var e :| e in printed && x == ElementRow(e);
      assert Repeats(elements, edges, SortedRoots(elements, edges), None, e);
    }
    forall id | id in ById(elements)
      ensures exists x :: x in elements' && x.id == id
    {
      assert id in RefSet(printed);
      var e :| e in printed && e.ref == id;
      ElementRowsAre(printed, ElementRow(e));
    }
  }

  lemma DistinctShownIds(elements: seq<ModelElement>, edges: seq<Edge>, elements': seq<ModelElement>, edges': seq<Edge>)
    requires Printable(elements, edges) && Shows(elements, edges, elements', edges')
    ensures Distinct(Ids(elements')) && LooksAlike(elements, elements')
  {
    hide ById, Printable, Shows;
    ShownElementsAre(elements, edges, elements', edges');
    forall i, j | 0 <= i < j < |elements'|
      ensures Ids(elements')[i] != Ids(elements')[j]
    {
      assert elements'[i] in elements' && elements'[j] in elements';
      assert elements'[i] != elements'[j];
    }
    forall id | id in ById(elements)
      ensures id in ById(elements')
    {
      var x :| x in elements' && x.id == id;
      var i :| 0 <= i < |elements'| && elements'[i] == x;
      ByIdFinds(elements', i);
    }
    forall id | id in ById(elements')
      ensures id in ById(elements) && ById(elements)[id].kind == ById(elements')[id].kind &&
              ById(elements)[id].name == ById(elements')[id].name
    {
      ByIdHolds(elements', id);
    }
  }

  lemma ShownIsPrintable(elements: seq<ModelElement>, edges: seq<Edge>, elements': seq<ModelElement>, edges': seq<Edge>)
    requires Printable(elements, edges) && Shows(elements, edges, elements', edges')
    ensures Printable(elements', edges')
  {
    hide ById, Shows, Distinct;
    DistinctShownIds(elements, edges, elements', edges');
    ShownEdgesAre(elements, edges, elements', edges');
    var rank := RankOf(EdgeSet(edges));
    assert Ranked(EdgeSet(edges'), rank);
  }

  lemma SameChildren(edges: seq<Edge>, edges': seq<Edge>, id: Id)
    requires Distinct(edges) && Distinct(edges') && forall x :: x in edges' <==> x in edges && x.kind == Contains
    ensures SortedChildren(edges, id) == SortedChildren(edges', id)
  {
    hide ChildrenOf, Distinct;
    ChildrenAreDistinct(edges, id);
    ChildrenAreDistinct(edges', id);
    forall child
      ensures child in ChildrenOf(edges, id) <==> child in ChildrenOf(edges', id)
    {
      ChildrenAreTargets(edges, id, child);
      ChildrenAreTargets(edges', id, child);
    }
    DistinctSameItems(ChildrenOf(edges, id), ChildrenOf(edges', id));
    SortIdsOrderFree(ChildrenOf(edges, id), ChildrenOf(edges', id));
  }

  lemma SameShownRoots(elements: seq<ModelElement>, edges: seq<Edge>, elements': seq<ModelElement>, edges': seq<Edge>)
    requires Distinct(Ids(elements)) && Distinct(Ids(elements')) && ById(elements).Keys == ById(elements').Keys
    requires forall x :: x in edges' <==> x in edges && x.kind == Contains
    ensures SortedRoots(elements, edges) == SortedRoots(elements', edges')
  {
    hide Distinct, ById;
    assert Contained(edges) == Contained(edges');
    RootsAreDistinct(elements, edges);
    RootsAreDistinct(elements', edges');
    forall id
      ensures id in RootIds(elements, edges) <==> id in RootIds(elements', edges')
    {
      RootsAreListed(elements, edges, id);
      RootsAreListed(elements', edges', id);
    }
    DistinctSameItems(RootIds(elements, edges), RootIds(elements', edges'));
    SortIdsOrderFree(RootIds(elements, edges), RootIds(elements', edges'));
  }

  lemma ShownTextIsSame(al: char -> bool, elements: seq<ModelElement>, edges: seq<Edge>, elements': seq<ModelElement>,
                        edges': seq<Edge>)
    requires Printable(elements, edges) && Shows(elements, edges, elements', edges')
    requires Distinct(Ids(elements)) && Distinct(edges)
    ensures Printable(elements', edges') && TextOf(al, elements', edges') == TextOf(al, elements, edges)
  {
    hide ById, Shows, Distinct, Printable, TextOf, SortedChildren, SortedRoots;
    ShownIsPrintable(elements, edges, elements', edges');
    DistinctShownIds(elements, edges, elements', edges');
    ShownEdgesAre(elements, edges, elements', edges');
    SameShownRoots(elements, edges, elements', edges');
    forall id
      ensures SortedChildren(edges, id) == SortedChildren(edges', id)
    {
      SameChildren(edges, edges', id);
    }
    SameText(al, elements, edges, elements', edges');
  }

  /** A graph without repeated rows, printed, parsed, read as elements and edges, each once and in the order of the
      text, and printed again, children and roots sorted anew, gives the same text, also where an element has
      several parents and is printed under each. */
  lemma PrintParsePrint(al: char -> bool, elements: seq<ModelElement>, edges: seq<Edge>)
    requires KeepsClear(al) && Printable(elements, edges) && forall id :: id in ById(elements) ==> LegalId(id)
    requires Distinct(Ids(elements)) && Distinct(edges)
    ensures var text := TextOf(al, elements, edges);
            var r := Document(al, text);
            && r.Ok? && Printable(ShownElements(r.value), ShownEdges(r.value))
            && TextOf(al, ShownElements(r.value), ShownEdges(r.value)) == text
  {
    hide ById, Printable, LegalId, MatchesAll, TextOf, Document, Distinct, Entries, KeepsClear, OutlineEntries,
         ElementRows, EdgeRows, Once;
    PrintedGraphParses(al, elements, edges);
    var parsed := Document(al, TextOf(al, elements, edges)).value;
    ParsedOutlineEntries(parsed, Outlines(elements, edges), None, 0);
    ShownTextIsSame(al, elements, edges, ShownElements(parsed), ShownEdges(parsed));
  }
}
