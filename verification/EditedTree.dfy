/** An accepted edit on the tree that was written: each element by the way that leads to it. */
module EditedTree {
  import opened SysmlModel
  import opened TextSyntax
  import opened Containment
  import opened Decimals
  import opened GraphOps
  import opened TextDiff
  import opened DiffAcceptance
  import opened DiffRealisation
  import opened DiffTheorems

  /** A way into the tree: which of the outermost elements, which of its children, and so on. */
  predicate Leads(ps: seq<ParsedElement>, path: seq<nat>)
    decreases |path|
  {
    path != [] && path[0] < |ps| && (|path| == 1 || Leads(ps[path[0]].children, path[1..]))
  }

  function NodeAt(ps: seq<ParsedElement>, path: seq<nat>): ParsedElement
    requires Leads(ps, path)
    decreases |path|
  {
    if |path| == 1 then ps[path[0]] else NodeAt(ps[path[0]].children, path[1..])
  }

  /** All elements, or the new ones only. */
  function Size(ps: seq<ParsedElement>, newOnly: bool): nat
    decreases ps
  {
    if ps == [] then 0 else Weight(ps[0], newOnly) + Size(ps[0].children, newOnly) + Size(ps[1..], newOnly)
  }

  function Weight(p: ParsedElement, newOnly: bool): nat {
    if newOnly && p.anchorId.Some? then 0 else 1
  }

  /** How many of them are written before an element. */
  function Before(ps: seq<ParsedElement>, path: seq<nat>, newOnly: bool): nat
    requires Leads(ps, path)
    decreases |path|, path[0]
  {
    if path[0] > 0 then
      Weight(ps[0], newOnly) + Size(ps[0].children, newOnly) + Before(ps[1..], [path[0] - 1] + path[1..], newOnly)
    else if |path| > 1 then Weight(ps[0], newOnly) + Before(ps[0].children, path[1..], newOnly)
    else 0
  }

  /** The id an element has in the batch: its anchor, or, for a new one, how many new ones are written before it. */
  function IdAt(ps: seq<ParsedElement>, path: seq<nat>): Id
    requires Leads(ps, path)
  {
    var anchor := NodeAt(ps, path).anchorId;
    if anchor.Some? then anchor.value else "__new_" + Decimal(Before(ps, path, true))
  }

  function Outward(path: seq<nat>): seq<nat>
    requires path != []
  {
    path[..|path| - 1]
  }

  lemma {:induction false} OutwardLeads(ps: seq<ParsedElement>, path: seq<nat>)
    requires Leads(ps, path) && |path| > 1
    ensures Leads(ps, Outward(path))
    decreases |path|
  {
    assert Outward(path)[1..] == Outward(path[1..]);
    if |path| > 2 {
      OutwardLeads(ps[path[0]].children, path[1..]);
    }
  }

  lemma {:induction false} NewCountIs(ps: seq<ParsedElement>)
    ensures NewCount(ps) == Size(ps, true)
    decreases ps
  {
    if ps != [] {
      NewCountIs(ps[0].children);
      NewCountIs(ps[1..]);
    }
  }

  function NextNew(p: ParsedElement, k: nat): nat {
    if p.anchorId.Some? then k else k + 1
  }

  function Inner(ps: seq<ParsedElement>, k: nat): seq<Entry>
    requires ps != []
  {
    Entries(ps[0].children, Some(RefOf(ps[0], k)), NextNew(ps[0], k))
  }

  function Outer(ps: seq<ParsedElement>, parent: Option<Id>, k: nat): seq<Entry>
    requires ps != []
  {
    Entries(ps[1..], parent, NextNew(ps[0], k) + NewCount(ps[0].children))
  }

  lemma EntriesAre(ps: seq<ParsedElement>, parent: Option<Id>, k: nat)
    requires ps != []
    ensures var p, inner, outer, all := ps[0], Inner(ps, k), Outer(ps, parent, k), Entries(ps, parent, k);
            && |all| == 1 + |inner| + |outer|
            && all[0] == Entry(RefOf(p, k), p.anchorId.Some?, p.kind, p.name, parent)
            && (forall i :: 0 <= i < |inner| ==> all[1 + i] == inner[i])
            && forall i :: 0 <= i < |outer| ==> all[1 + |inner| + i] == outer[i]
  {
    hide Entries, Inner, Outer, RefOf;
    var p := ps[0];
    EntriesSplit(ps, parent, k);
    ThreeParts(Entry(RefOf(p, k), p.anchorId.Some?, p.kind, p.name, parent), Inner(ps, k), Outer(ps, parent, k));
  }

  lemma EntriesSplit(ps: seq<ParsedElement>, parent: Option<Id>, k: nat)
    requires ps != []
    ensures Entries(ps, parent, k) ==
            [Entry(RefOf(ps[0], k), ps[0].anchorId.Some?, ps[0].kind, ps[0].name, parent)] +
            (Inner(ps, k) + Outer(ps, parent, k))
  {
    hide NewCount, RefOf, Inner, Outer;
    var k' := NextNew(ps[0], k);
    InnerIs(ps, k);
    OuterIs(ps, parent, k);
    assert Entries(ps, parent, k) ==
           [Entry(RefOf(ps[0], k), ps[0].anchorId.Some?, ps[0].kind, ps[0].name, parent)] +
           (Entries(ps[0].children, Some(RefOf(ps[0], k)), k') +
            Entries(ps[1..], parent, k' + NewCount(ps[0].children)));
  }

  lemma InnerIs(ps: seq<ParsedElement>, k: nat)
    requires ps != []
    ensures Inner(ps, k) == Entries(ps[0].children, Some(RefOf(ps[0], k)), NextNew(ps[0], k))
  {
    hide Entries;
  }

  lemma OuterIs(ps: seq<ParsedElement>, parent: Option<Id>, k: nat)
    requires ps != []
    ensures Outer(ps, parent, k) == Entries(ps[1..], parent, NextNew(ps[0], k) + NewCount(ps[0].children))
  {
    hide Entries;
  }

  lemma ThreeParts(first: Entry, inner: seq<Entry>, outer: seq<Entry>)
    ensures var all := [first] + (inner + outer);
            && |all| == 1 + |inner| + |outer| && all[0] == first
            && (forall i :: 0 <= i < |inner| ==> all[1 + i] == inner[i])
            && forall i :: 0 <= i < |outer| ==> all[1 + |inner| + i] == outer[i]
  {
  }

  lemma {:induction false} EntriesSize(ps: seq<ParsedElement>, parent: Option<Id>, k: nat)
    ensures |Entries(ps, parent, k)| == Size(ps, false)
    decreases ps
  {
    hide Entries;
    if ps == [] {
      NoEntries(parent, k);
    } else {
      EntriesAre(ps, parent, k);
      EntriesSize(ps[0].children, Some(RefOf(ps[0], k)), NextNew(ps[0], k));
      EntriesSize(ps[1..], parent, NextNew(ps[0], k) + NewCount(ps[0].children));
    }
  }

  lemma NoEntries(parent: Option<Id>, k: nat)
    ensures Entries([], parent, k) == []
  {
  }

  /** Reading on behind the first element and all in it. */
  function Sideways(path: seq<nat>): seq<nat>
    requires path != [] && path[0] > 0
  {
    [path[0] - 1] + path[1..]
  }

  lemma {:induction false} SidewaysLeads(ps: seq<ParsedElement>, path: seq<nat>)
    requires path != [] && path[0] > 0 && ps != []
    ensures Leads(ps, path) <==> Leads(ps[1..], Sideways(path))
    ensures Leads(ps, path) ==> NodeAt(ps, path) == NodeAt(ps[1..], Sideways(path))
    ensures |path| > 1 ==> Outward(path)[0] > 0 && Sideways(Outward(path)) == Outward(Sideways(path))
  {
    assert Sideways(path)[1..] == path[1..];
    if path[0] < |ps| {
      assert ps[1..][path[0] - 1] == ps[path[0]];
    }
  }

  /** The entry of an element, from some place on. */
  ghost predicate EntryOf(ps: seq<ParsedElement>, parent: Option<Id>, k: nat, path: seq<nat>, entries: seq<Entry>)
    requires Leads(ps, path)
  {
    var at, p := Before(ps, path, false), NodeAt(ps, path);
    && at < |entries|
    && entries[at].ref == (if p.anchorId.Some? then p.anchorId.value else TempId(k + Before(ps, path, true)))
    && entries[at].known == p.anchorId.Some? && entries[at].kind == p.kind && entries[at].name == p.name
    && if |path| == 1 then entries[at].parent == parent
       else
         && Leads(ps, Outward(path)) && Before(ps, Outward(path), false) < |entries|
         && entries[at].parent == Some(entries[Before(ps, Outward(path), false)].ref)
  }

  lemma {:induction false} EntryAt(ps: seq<ParsedElement>, parent: Option<Id>, k: nat, path: seq<nat>)
    requires Leads(ps, path)
    ensures EntryOf(ps, parent, k, path, Entries(ps, parent, k))
    decreases |path|, if path == [] then 0 else path[0]
  {
    hide EntryOf, Leads, Entries, Before, NodeAt, Size, NewCount, RefOf;
    LeadsSomewhere(ps, path);
    if path[0] > 0 {
      SidewaysLeads(ps, path);
      EntryAt(ps[1..], parent, NextNew(ps[0], k) + NewCount(ps[0].children), Sideways(path));
      BehindFirst(ps, parent, k, path);
    } else if |path| > 1 {
      LeadsInside(ps, path);
      EntryAt(ps[0].children, Some(RefOf(ps[0], k)), NextNew(ps[0], k), path[1..]);
      InsideFirst(ps, parent, k, path);
    } else {
      FirstOfAll(ps, parent, k, path);
    }
  }

  lemma LeadsSomewhere(ps: seq<ParsedElement>, path: seq<nat>)
    requires Leads(ps, path)
    ensures path != [] && path[0] < |ps|
  {
  }

  lemma LeadsInside(ps: seq<ParsedElement>, path: seq<nat>)
    requires Leads(ps, path) && |path| > 1
    ensures Leads(ps[path[0]].children, path[1..])
    ensures NodeAt(ps, path) == NodeAt(ps[path[0]].children, path[1..])
    ensures |path| > 2 ==> Outward(path)[1..] == Outward(path[1..])
  {
  }

  lemma FirstOfAll(ps: seq<ParsedElement>, parent: Option<Id>, k: nat, path: seq<nat>)
    requires Leads(ps, path) && path == [0]
    ensures EntryOf(ps, parent, k, path, Entries(ps, parent, k))
  {
  }

  lemma BeforeSideways(ps: seq<ParsedElement>, path: seq<nat>, newOnly: bool)
    requires path != [] && path[0] > 0 && ps != [] && Leads(ps, path) && Leads(ps[1..], Sideways(path))
    ensures Before(ps, path, newOnly) ==
            Weight(ps[0], newOnly) + Size(ps[0].children, newOnly) + Before(ps[1..], Sideways(path), newOnly)
  {
    hide Size;
  }

  lemma BeforeInside(ps: seq<ParsedElement>, path: seq<nat>, newOnly: bool)
    requires |path| > 1 && path[0] == 0 && ps != [] && Leads(ps, path) && Leads(ps[0].children, path[1..])
    ensures Before(ps, path, newOnly) == Weight(ps[0], newOnly) + Before(ps[0].children, path[1..], newOnly)
  {
    hide Size;
  }

  lemma BehindFirst(ps: seq<ParsedElement>, parent: Option<Id>, k: nat, path: seq<nat>)
    requires path != [] && ps != [] && Leads(ps, path) && path[0] > 0 && Leads(ps[1..], Sideways(path))
    requires EntryOf(ps[1..], parent, NextNew(ps[0], k) + NewCount(ps[0].children), Sideways(path),
                     Outer(ps, parent, k))
    ensures EntryOf(ps, parent, k, path, Entries(ps, parent, k))
  {
    hide Leads, NodeAt, Size, NewCount, RefOf, Entries, Before, Inner, Outer, TempId;
    SidewaysLeads(ps, path);
    EntriesAre(ps, parent, k);
    InnerSize(ps, k);
    NewCountIs(ps[0].children);
    BeforeSideways(ps, path, false);
    BeforeSideways(ps, path, true);
    if |path| > 1 {
      OutwardLeads(ps, path);
      SidewaysLeads(ps, Outward(path));
      BeforeSideways(ps, Outward(path), false);
    }
  }

  lemma InnerSize(ps: seq<ParsedElement>, k: nat)
    requires ps != []
    ensures |Inner(ps, k)| == Size(ps[0].children, false)
  {
    hide Entries, Size;
    EntriesSize(ps[0].children, Some(RefOf(ps[0], k)), NextNew(ps[0], k));
  }

  lemma InsideFirst(ps: seq<ParsedElement>, parent: Option<Id>, k: nat, path: seq<nat>)
    requires ps != [] && |path| > 1 && Leads(ps, path) && path[0] == 0 && Leads(ps[0].children, path[1..])
    requires EntryOf(ps[0].children, Some(RefOf(ps[0], k)), NextNew(ps[0], k), path[1..], Inner(ps, k))
    ensures EntryOf(ps, parent, k, path, Entries(ps, parent, k))
  {
    hide Leads, NodeAt, Size, NewCount, RefOf, Entries, Before, Inner, Outer, TempId;
    LeadsInside(ps, path);
    EntriesAre(ps, parent, k);
    OutwardLeads(ps, path);
    BeforeInside(ps, path, false);
    BeforeInside(ps, path, true);
    if |path| == 2 {
      NothingBefore(ps, Outward(path));
    } else {
      OutwardLeads(ps[0].children, path[1..]);
      BeforeInside(ps, Outward(path), false);
    }
  }

  lemma NothingBefore(ps: seq<ParsedElement>, path: seq<nat>)
    requires path == [0] && Leads(ps, path)
    ensures Before(ps, path, false) == 0
  {
  }

  /** Every entry is that of some element. */
  lemma {:induction false} EntryHasPath(ps: seq<ParsedElement>, i: nat) returns (path: seq<nat>)
    requires i < Size(ps, false)
    ensures Leads(ps, path) && Before(ps, path, false) == i
    decreases ps
  {
    var inside := Size(ps[0].children, false);
    if i == 0 {
      path := [0];
    } else if i <= inside {
      var rest := EntryHasPath(ps[0].children, i - 1);
      path := [0] + rest;
      assert path[1..] == rest;
    } else {
      var rest := EntryHasPath(ps[1..], i - 1 - inside);
      path := [rest[0] + 1] + rest[1..];
      assert Sideways(path) == rest;
      SidewaysLeads(ps, path);
    }
  }

  // ----- The edit -----

  /** Applying an accepted edit gives the tree that was written: every element under its kind and name, contained in
      just the one around it. */
  lemma TreeIsBuilt(elements: seq<ModelElement>, edges: seq<Edge>, parsed: seq<ParsedElement>, bodies: map<Id, Body>,
                    path: seq<nat>)
    requires Diffable(elements, edges) && Diff(elements, edges, parsed).Accepted? && Leads(parsed, path)
    ensures var end := ApplyOps(Current(elements, edges, bodies), Diff(elements, edges, parsed).ops);
            var p, id := NodeAt(parsed, path), IdAt(parsed, path);
            && id in end.elements && end.elements[id].kind == p.kind && end.elements[id].name == p.name
            && forall around ::
                 Edge(around, id, Contains) in end.edges <==>
                 |path| > 1 && Leads(parsed, Outward(path)) && around == IdAt(parsed, Outward(path))
  {
    hide Diffable, Entries, Diff, ApplyOps, Current, Leads, NodeAt, Before, Distinct, Decimal, EntryOf;
    var entries := Entries(parsed, None, 0);
    DiffRealisesTheEdit(elements, edges, parsed, bodies);
    LeadsSomewhere(parsed, path);
    EntryAt(parsed, None, 0, path);
    var e := EntryIs(parsed, path, entries);
    var end := ApplyOps(Current(elements, edges, bodies), Diff(elements, edges, parsed).ops);
    forall around
      ensures Edge(around, e.ref, Contains) in end.edges <==> e.parent == Some(around)
    {
      OnlyParent(entries, e, around);
      assert Edge(around, e.ref, Contains) in end.edges <==>
             Edge(around, e.ref, Contains) in set x | x in end.edges && x.kind == Contains;
    }
    if |path| > 1 {
      OutwardLeads(parsed, path);
      EntryAt(parsed, None, 0, Outward(path));
      var outer := EntryIs(parsed, Outward(path), entries);
      assert e.parent == Some(outer.ref);
    }
  }

  lemma EntryIs(parsed: seq<ParsedElement>, path: seq<nat>, entries: seq<Entry>) returns (e: Entry)
    requires Leads(parsed, path) && EntryOf(parsed, None, 0, path, entries)
    ensures var at := Before(parsed, path, false); at < |entries| && e == entries[at] && e in entries
    ensures e.ref == IdAt(parsed, path)
    ensures e.kind == NodeAt(parsed, path).kind && e.name == NodeAt(parsed, path).name
    ensures if |path| == 1 then e.parent == None
            else
              && Leads(parsed, Outward(path)) && Before(parsed, Outward(path), false) < |entries|
              && e.parent == Some(entries[Before(parsed, Outward(path), false)].ref)
  {
    hide Leads, NodeAt, Before, Decimal;
    e := entries[Before(parsed, path, false)];
  }

  lemma OnlyParent(entries: seq<Entry>, e: Entry, around: Id)
    requires e in entries && Distinct(Refs(entries))
    ensures Edge(around, e.ref, Contains) in Hierarchy(entries) <==> e.parent == Some(around)
  {
    if Edge(around, e.ref, Contains) in Hierarchy(entries) {
      var f :| f in entries && f.parent.Some? && Edge(f.parent.value, f.ref, Contains) == Edge(around, e.ref, Contains);
      var i :| 0 <= i < |entries| && entries[i] == e;
      var j :| 0 <= j < |entries| && entries[j] == f;
      assert Refs(entries)[i] == Refs(entries)[j];
    }
  }

  /** And there is no other element: each of the model's was written, in one place. */
  lemma NothingElse(elements: seq<ModelElement>, edges: seq<Edge>, parsed: seq<ParsedElement>, bodies: map<Id, Body>,
                    id: Id) returns (path: seq<nat>)
    requires Diffable(elements, edges) && Diff(elements, edges, parsed).Accepted?
    requires id in ApplyOps(Current(elements, edges, bodies), Diff(elements, edges, parsed).ops).elements
    ensures Leads(parsed, path) && IdAt(parsed, path) == id
    ensures forall other :: Leads(parsed, other) && IdAt(parsed, other) == id ==>
              Before(parsed, other, false) == Before(parsed, path, false)
  {
    hide Diffable, Entries, Diff, ApplyOps, Current, Leads, NodeAt, Before, Distinct, Decimal, EntryOf, Hierarchy, IdAt;
    var entries := Entries(parsed, None, 0);
    DiffRealisesTheEdit(elements, edges, parsed, bodies);
    EntriesSize(parsed, None, 0);
    var e :| e in entries && e.ref == id;
    var i :| 0 <= i < |entries| && entries[i] == e;
    path := EntryHasPath(parsed, i);
    EntryAt(parsed, None, 0, path);
    var found := EntryIs(parsed, path, entries);
    forall other | Leads(parsed, other) && IdAt(parsed, other) == id
      ensures Before(parsed, other, false) == i
    {
      EntryAt(parsed, None, 0, other);
      var again := EntryIs(parsed, other, entries);
      SameRefSameEntry(entries, Before(parsed, other, false), i);
    }
  }
}
