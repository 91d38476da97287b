/** The pretty-printer: a containment hierarchy, sorted by id at every level, as text. */
module TextPrinter {
  import opened SysmlModel
  import opened Ordering
  import opened TextSyntax
  import opened ReadingBack
  import opened Containment

  /** One printed element and what is nested in it. */
  datatype Outline = Outline(id: Id, kind: NodeKind, name: string, children: seq<Outline>)

  /** What a printer's input has to be: edges between listed elements, and no containment cycle. */
  ghost predicate Printable(elements: seq<ModelElement>, edges: seq<Edge>) {
    Closed(elements, edges) && Acyclic(EdgeSet(edges))
  }

  function SortedChildren(edges: seq<Edge>, id: Id): seq<Id> {
    SortIds(ChildrenOf(edges, id))
  }

  lemma {:induction false} ChildrenAreTargets(edges: seq<Edge>, id: Id, child: Id)
    ensures child in ChildrenOf(edges, id) <==> Edge(id, child, Contains) in edges
  {
    if edges != [] {
      ChildrenAreTargets(edges[..|edges| - 1], id, child);
      assert edges == edges[..|edges| - 1] + [edges[|edges| - 1]];
    }
  }

  lemma ChildIsLower(elements: seq<ModelElement>, edges: seq<Edge>, id: Id, i: nat)
    requires Printable(elements, edges) && i < |SortedChildren(edges, id)|
    ensures SortedChildren(edges, id)[i] in ById(elements)
    ensures RankOf(EdgeSet(edges))(id) > RankOf(EdgeSet(edges))(SortedChildren(edges, id)[i])
  {
    var child := SortedChildren(edges, id)[i];
    assert child in multiset(SortedChildren(edges, id));
    ChildrenAreTargets(edges, id, child);
    var e := Edge(id, child, Contains);
    assert e in EdgeSet(edges);
  }

  ghost function OutlineOf(elements: seq<ModelElement>, edges: seq<Edge>, id: Id): Outline
    requires Printable(elements, edges) && id in ById(elements)
    decreases RankOf(EdgeSet(edges))(id)
  {
    var element := ById(elements)[id];
    var kids := SortedChildren(edges, id);
    Outline(id, element.kind, element.name,
            seq(|kids|, i requires 0 <= i < |kids| =>
              ChildIsLower(elements, edges, id, i);
              OutlineOf(elements, edges, kids[i])))
  }

  ghost function OutlinesOf(elements: seq<ModelElement>, edges: seq<Edge>, ids: seq<Id>): seq<Outline>
    requires Printable(elements, edges) && forall id :: id in ids ==> id in ById(elements)
  {
    seq(|ids|, i requires 0 <= i < |ids| => OutlineOf(elements, edges, ids[i]))
  }

  lemma {:induction false} RootsAreListed(elements: seq<ModelElement>, edges: seq<Edge>, id: Id)
    ensures id in RootIds(elements, edges) <==> id in ById(elements) && id !in Contained(edges)
  {
    if elements != [] {
      RootsAreListed(elements[..|elements| - 1], edges, id);
    }
  }

  function SortedRoots(elements: seq<ModelElement>, edges: seq<Edge>): (ids: seq<Id>)
    ensures forall id :: id in ids <==> id in ById(elements) && id !in Contained(edges)
  {
    var ids := SortIds(RootIds(elements, edges));
    assert forall id :: id in ids <==> id in multiset(ids);
    assert forall id :: id in ids <==> id in ById(elements) && id !in Contained(edges) by {
      forall id { RootsAreListed(elements, edges, id); }
    }
    ids
  }

  /** The whole hierarchy: the roots' outlines, in id order. */
  ghost function Outlines(elements: seq<ModelElement>, edges: seq<Edge>): seq<Outline>
    requires Printable(elements, edges)
  {
    OutlinesOf(elements, edges, SortedRoots(elements, edges))
  }

  // ----- Text -----

  function Indent(depth: nat): string {
    if depth == 0 then "" else "  " + Indent(depth - 1)
  }

  function Replace(s: string, c: char, with: string): string {
    if s == "" then "" else (if s[0] == c then with else [s[0]]) + Replace(s[1..], c, with)
  }

  predicate IsBare(al: char -> bool, name: string) {
    name != "" && forall i :: 0 <= i < |name| ==> NameChar(al)(name[i])
  }

  /** The name as it stands if the parser reads it as one bare identifier, quoted otherwise. */
  function FormatIdentifier(al: char -> bool, name: string): string {
    if IsBare(al, name) then name
    else "\"" + Replace(Replace(name, '\\', "\\\\"), '"', "\\\"") + "\""
  }

  function HeadingText(al: char -> bool, t: Outline): string {
    KindKeyword(t.kind) + (" " + (FormatIdentifier(al, t.name) + (" /* #" + (t.id + " */"))))
  }

  /** From the keyword to the closing brace. */
  function OutlineText(al: char -> bool, t: Outline, depth: nat): string
    decreases t, 2
  {
    HeadingText(al, t) + (" {" + BlockText(al, t.children, depth))
  }

  /** What follows an opening brace, its closing brace included. */
  function BlockText(al: char -> bool, ts: seq<Outline>, depth: nat): string
    decreases ts, 2
  {
    if ts == [] then "}"
    else "\n" + (OutlinesText(al, ts, depth + 1) + (Indent(depth) + "}"))
  }

  /** One line-broken, indented block of text per outline. */
  function OutlinesText(al: char -> bool, ts: seq<Outline>, depth: nat): string
    decreases ts, 1
  {
    if ts == [] then ""
    else Indent(depth) + (OutlineText(al, ts[0], depth) + ("\n" + OutlinesText(al, ts[1..], depth)))
  }

  lemma {:induction false} OutlinesTextSnoc(al: char -> bool, ts: seq<Outline>, t: Outline, depth: nat)
    ensures OutlinesText(al, ts + [t], depth)
         == OutlinesText(al, ts, depth) + (Indent(depth) + (OutlineText(al, t, depth) + "\n"))
  {
    hide *;
    NoOutlinesText(al, depth);
    if ts == [] {
      assert ts + [t] == [t] + [];
      OutlinesTextCons(al, t, [], depth);
    } else {
      var first, more := Indent(depth) + (OutlineText(al, ts[0], depth) + "\n"),
                         Indent(depth) + (OutlineText(al, t, depth) + "\n");
      assert ts == [ts[0]] + ts[1..];
      assert ts + [t] == [ts[0]] + (ts[1..] + [t]);
      OutlinesTextCons(al, ts[0], ts[1..], depth);
      OutlinesTextCons(al, ts[0], ts[1..] + [t], depth);
      OutlinesTextSnoc(al, ts[1..], t, depth);
      Regroup(first, OutlinesText(al, ts[1..], depth), more);
    }
  }

  lemma NoOutlinesText(al: char -> bool, depth: nat)
    ensures OutlinesText(al, [], depth) == ""
    ensures forall s: string :: s + "" == s && "" + s == s
  {
  }

  lemma OutlinesTextCons(al: char -> bool, t: Outline, rest: seq<Outline>, depth: nat)
    ensures OutlinesText(al, [t] + rest, depth)
         == (Indent(depth) + (OutlineText(al, t, depth) + "\n")) + OutlinesText(al, rest, depth)
  {
    hide OutlineText, Indent;
    assert ([t] + rest)[1..] == rest;
  }

  lemma PrintedOneMore(al: char -> bool, text: string, ts: seq<Outline>, i: nat, depth: nat)
    requires i < |ts|
    ensures text + OutlinesText(al, ts[..i], depth) + (Indent(depth) + (OutlineText(al, ts[i], depth) + "\n"))
         == text + OutlinesText(al, ts[..i + 1], depth)
  {
    hide *;
    OutlinesTextSnoc(al, ts[..i], ts[i], depth);
    assert ts[..i + 1] == ts[..i] + [ts[i]];
    Regroup(text, OutlinesText(al, ts[..i], depth), Indent(depth) + (OutlineText(al, ts[i], depth) + "\n"));
  }

  lemma NothingPrinted(al: char -> bool, text: string, ts: seq<Outline>, depth: nat)
    ensures text + OutlinesText(al, ts[..0], depth) == text
  {
  }

  // ----- The printer -----

  class Output {
    var text: string

    constructor ()
      ensures text == ""
    {
      text := "";
    }

    method Push(s: string)
      modifies this
      ensures text == old(text) + s
    {
      text := text + s;
    }
  }

  lemma RegroupHeading(text: string, a: string, b: string, c: string, d: string, e: string, f: string, g: string)
    ensures ((((((text + a) + b) + c) + d) + e) + f) + g == text + (a + (b + (c + (d + (e + (f + g))))))
  {
    Regroup(((((text + a) + b) + c) + d) + e, f, g);
    Regroup((((text + a) + b) + c) + d, e, f + g);
    Regroup(((text + a) + b) + c, d, e + (f + g));
    Regroup((text + a) + b, c, d + (e + (f + g)));
    Regroup(text + a, b, c + (d + (e + (f + g))));
    Regroup(text, a, b + (c + (d + (e + (f + g)))));
  }

  lemma RegroupBlock(text: string, indent: string, heading: string, children: string)
    ensures ((((text + (indent + heading)) + " {\n") + children) + indent) + "}\n"
         == text + (indent + ((heading + (" {" + ("\n" + (children + (indent + "}"))))) + "\n"))
  {
    var start := text + (indent + heading);
    Regroup(" {", "\n", children + (indent + "}"));
    assert " {\n" == " {" + "\n";
    assert "}\n" == "}" + "\n";
    Regroup((start + " {\n") + children, indent, "}\n");
    Regroup(indent, "}", "\n");
    Regroup(start + " {\n", children, indent + "}\n");
    Regroup(children, indent + "}", "\n");
    Regroup(start, " {\n", children + (indent + "}\n"));
    Regroup(" {\n", children + (indent + "}"), "\n");
    var block := " {\n" + (children + (indent + "}"));
    Regroup(text, indent + heading, block + "\n");
    Regroup(indent, heading, block + "\n");
    Regroup(heading, block, "\n");
  }

  lemma RegroupLeaf(text: string, indent: string, heading: string)
    ensures (text + (indent + heading)) + " {}\n" == text + (indent + ((heading + (" {" + "}")) + "\n"))
  {
    assert " {" + "}" == " {}";
    assert " {}\n" == " {}" + "\n";
    Regroup(text, indent + heading, " {}\n");
    Regroup(indent, heading, " {}\n");
    Regroup(heading, " {}", "\n");
  }

  function Listed(childrenOf: map<Id, seq<Id>>, id: Id): seq<Id> {
    if id in childrenOf then childrenOf[id] else []
  }

  ghost predicate IndexesSorted(childrenOf: map<Id, seq<Id>>, edges: seq<Edge>) {
    forall id :: Listed(childrenOf, id) == SortedChildren(edges, id)
  }

  method IndexChildren(edges: seq<Edge>) returns (childrenOf: map<Id, seq<Id>>, hasParent: set<Id>)
    ensures IndexesSorted(childrenOf, edges)
    ensures hasParent == Contained(edges)
  {
    hide ChildrenOf, Contained, SortedChildren, SortIds;
    childrenOf, hasParent := map[], {};
    NoEdgesYet(edges);
    for i := 0 to |edges|
      invariant forall id :: Listed(childrenOf, id) == ChildrenOf(edges[..i], id)
      invariant hasParent == Contained(edges[..i])
    {
      var edge := edges[i];
      ghost var before := childrenOf;
      if edge.kind == Contains {
        childrenOf := childrenOf[edge.source := Listed(childrenOf, edge.source) + [edge.target]];
        hasParent := hasParent + {edge.target};
      }
      OneMoreEdge(edges, i, edge.source);
      forall id
        ensures Listed(childrenOf, id) == ChildrenOf(edges[..i + 1], id)
      {
        OneMoreEdge(edges, i, id);
        assert Listed(before, id) == ChildrenOf(edges[..i], id);
      }
    }
    assert edges[..|edges|] == edges;
    childrenOf := SortEachList(childrenOf);
    SortedListsIndex(childrenOf, edges);
  }

  lemma NoEdgesYet(edges: seq<Edge>)
    ensures Contained(edges[..0]) == {}
    ensures forall id :: ChildrenOf(edges[..0], id) == []
  {
  }

  lemma OneMoreEdge(edges: seq<Edge>, i: nat, id: Id)
    requires i < |edges|
    ensures var e := edges[i];
            && ChildrenOf(edges[..i + 1], id)
               == (if e.kind == Contains && e.source == id then ChildrenOf(edges[..i], id) + [e.target]
                   else ChildrenOf(edges[..i], id))
            && Contained(edges[..i + 1]) == Contained(edges[..i]) + (if e.kind == Contains then {e.target} else {})
  {
    assert edges[..i + 1] == edges[..i] + [edges[i]];
    assert edges[..i + 1][..i] == edges[..i];
  }

  lemma SortedListsIndex(childrenOf: map<Id, seq<Id>>, edges: seq<Edge>)
    requires forall id :: Listed(childrenOf, id) == SortIds(ChildrenOf(edges, id))
    ensures IndexesSorted(childrenOf, edges)
  {
  }

  method SortEachList(lists: map<Id, seq<Id>>) returns (sorted: map<Id, seq<Id>>)
    ensures forall id :: Listed(sorted, id) == SortIds(Listed(lists, id))
  {
    sorted := lists;
    var unsorted := lists.Keys;
    while unsorted != {}
      invariant unsorted <= lists.Keys && sorted.Keys == lists.Keys
      invariant forall id :: id in unsorted ==> sorted[id] == lists[id]
      invariant forall id :: id in lists && id !in unsorted ==> sorted[id] == SortIds(lists[id])
      decreases |unsorted|
    {
      var id :| id in unsorted;
      sorted := sorted[id := SortIds(sorted[id])];
      unsorted := unsorted - {id};
    }
  }

  method FindRoots(elements: seq<ModelElement>, ghost edges: seq<Edge>, hasParent: set<Id>) returns (roots: seq<Id>)
    requires hasParent == Contained(edges)
    ensures roots == SortedRoots(elements, edges)
  {
    hide Contained, SortIds;
    roots := [];
    for i := 0 to |elements|
      invariant roots == RootIds(elements[..i], edges)
    {
      assert elements[..i + 1][..i] == elements[..i];
      if elements[i].id !in hasParent {
        roots := roots + [elements[i].id];
      }
    }
    assert elements[..|elements|] == elements;
    roots := SortIds(roots);
  }

  method PrintTree(al: char -> bool, elements: seq<ModelElement>, edges: seq<Edge>) returns (text: string)
    requires Printable(elements, edges)
    ensures text == OutlinesText(al, Outlines(elements, edges), 0)
  {
    hide *;
    var childrenOf, hasParent := IndexChildren(edges);
    var byId := ById(elements);
    var roots := FindRoots(elements, edges, hasParent);
    RootsAreElements(elements, edges);
    var out := new Output();
    ghost var outlines := Outlines(elements, edges);
    NothingPrinted(al, "", outlines, 0);
    for i := 0 to |roots|
      invariant out.text == "" + OutlinesText(al, outlines[..i], 0)
    {
      PrintElement(al, elements, edges, roots[i], byId, childrenOf, 0, out);
      PrintedOneMore(al, "", outlines, i, 0);
    }
    assert outlines[..|roots|] == outlines;
    text := out.text;
  }

  lemma RootsAreElements(elements: seq<ModelElement>, edges: seq<Edge>)
    requires Printable(elements, edges)
    ensures var ids := SortedRoots(elements, edges);
            && |Outlines(elements, edges)| == |ids|
            && forall i :: 0 <= i < |ids| ==>
                 ids[i] in ById(elements) && Outlines(elements, edges)[i] == OutlineOf(elements, edges, ids[i])
  {
    hide ById, Contained, SortedRoots, OutlineOf, SortIds;
  }

  method PrintElement(al: char -> bool, ghost elements: seq<ModelElement>, ghost edges: seq<Edge>, id: Id,
                      byId: map<Id, ModelElement>, childrenOf: map<Id, seq<Id>>, depth: nat, out: Output)
    requires Printable(elements, edges) && byId == ById(elements) && IndexesSorted(childrenOf, edges)
    requires id in byId
    modifies out
    ensures out.text == old(out.text) +
            (Indent(depth) + (OutlineText(al, OutlineOf(elements, edges, id), depth) + "\n"))
    decreases RankOf(EdgeSet(edges))(id)
  {
    hide *;
    OutlineIs(elements, edges, id, childrenOf);
    ghost var t := OutlineOf(elements, edges, id);
    ghost var before := out.text;
    var element := byId[id];
    var indent := Indent(depth);
    var keyword := KindKeyword(element.kind);
    var name := FormatIdentifier(al, element.name);
    out.Push(indent);
    out.Push(keyword);
    out.Push(" ");
    out.Push(name);
    out.Push(" /* #");
    out.Push(id);
    out.Push(" */");
    RegroupHeading(before, indent, keyword, " ", name, " /* #", id, " */");
    ghost var heading := HeadingText(al, t);
    HeadingIs(al, t);

    var children := Listed(childrenOf, id);
    if children != [] {
      out.Push(" {\n");
      PrintChildren(al, elements, edges, id, byId, childrenOf, depth, out);
      out.Push(indent);
      out.Push("}\n");
      RegroupBlock(before, indent, heading, OutlinesText(al, t.children, depth + 1));
    } else {
      out.Push(" {}\n");
      RegroupLeaf(before, indent, heading);
    }
    OutlineTextIs(al, t, depth);
  }

  lemma OutlineIs(elements: seq<ModelElement>, edges: seq<Edge>, id: Id, childrenOf: map<Id, seq<Id>>)
    requires Printable(elements, edges) && id in ById(elements) && IndexesSorted(childrenOf, edges)
    ensures var t, e := OutlineOf(elements, edges, id), ById(elements)[id];
            && t.id == id && t.kind == e.kind && t.name == e.name
            && |t.children| == |Listed(childrenOf, id)|
            && forall i :: 0 <= i < |t.children| ==>
                 var child := Listed(childrenOf, id)[i];
                 && child in ById(elements)
                 && RankOf(EdgeSet(edges))(id) > RankOf(EdgeSet(edges))(child)
                 && t.children[i] == OutlineOf(elements, edges, child)
  {
    hide ById, Closed, Acyclic, EdgeSet, RankOf, SortedChildren;
    forall i | 0 <= i < |SortedChildren(edges, id)|
      ensures SortedChildren(edges, id)[i] in ById(elements)
      ensures RankOf(EdgeSet(edges))(id) > RankOf(EdgeSet(edges))(SortedChildren(edges, id)[i])
    {
      ChildIsLower(elements, edges, id, i);
    }
    assert Listed(childrenOf, id) == SortedChildren(edges, id);
  }

  lemma HeadingIs(al: char -> bool, t: Outline)
    ensures HeadingText(al, t)
         == KindKeyword(t.kind) + (" " + (FormatIdentifier(al, t.name) + (" /* #" + (t.id + " */"))))
  {
  }

  lemma OutlineTextIs(al: char -> bool, t: Outline, depth: nat)
    ensures OutlineText(al, t, depth) == HeadingText(al, t) + (" {" +
              if t.children == [] then "}"
              else "\n" + (OutlinesText(al, t.children, depth + 1) + (Indent(depth) + "}")))
  {
  }

  /** The loop of `PrintElement` over an element's children. */
  method PrintChildren(al: char -> bool, ghost elements: seq<ModelElement>, ghost edges: seq<Edge>, id: Id,
                       byId: map<Id, ModelElement>, childrenOf: map<Id, seq<Id>>, depth: nat, out: Output)
    requires Printable(elements, edges) && byId == ById(elements) && IndexesSorted(childrenOf, edges)
    requires id in byId
    modifies out
    ensures out.text == old(out.text) + OutlinesText(al, OutlineOf(elements, edges, id).children, depth + 1)
    decreases RankOf(EdgeSet(edges))(id), 0
  {
    hide *;
    OutlineIs(elements, edges, id, childrenOf);
    ghost var before := out.text;
    ghost var ts := OutlineOf(elements, edges, id).children;
    var children := Listed(childrenOf, id);
    NothingPrinted(al, before, ts, depth + 1);
    for i := 0 to |children|
      invariant out.text == before + OutlinesText(al, ts[..i], depth + 1)
    {
      PrintElement(al, elements, edges, children[i], byId, childrenOf, depth + 1, out);
      PrintedOneMore(al, before, ts, i, depth + 1);
    }
    assert ts[..|children|] == ts;
  }
}
