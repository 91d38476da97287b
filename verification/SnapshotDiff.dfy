/** What changed from one snapshot to another, as the entries whose replay makes the change again. */
module SnapshotDiff {
  import opened SysmlModel
  import opened GraphOps
  import opened Versioning

  // ----- What is compared -----

  function OldProperty(was: Body, key: string): string {
    if key in was.properties then was.properties[key] else JsonNull
  }

  /** An entry tells a difference between two snapshots, with the old value and the new one. */
  ghost predicate Tells(was: Snapshot, now: Snapshot, d: DiffEntry) {
    match d
    case ElementRenamed(id, oldName, newName) =>
      && id in was.elements && id in now.elements && was.elements[id].name == oldName != newName
      && now.elements[id].name == newName
    case ElementActiveChanged(id, active) =>
      && id in was.elements && id in now.elements && was.elements[id].active != active
      && now.elements[id].active == active
    case ElementOriginChanged(id, origin) =>
      && id in was.elements && id in now.elements && was.elements[id].origin != origin
      && now.elements[id].origin == origin
    case ElementCreated(id, kind, name) =>
      id !in was.elements && id in now.elements && now.elements[id].kind == kind && now.elements[id].name == name
    case ElementDeleted(id, kind, name) =>
      id in was.elements && id !in now.elements && was.elements[id].kind == kind && was.elements[id].name == name
    case PropertyChanged(id, key, oldValue, newValue) =>
      && id in was.bodies && id in now.bodies && key in now.bodies[id].properties
      && now.bodies[id].properties[key] == newValue != oldValue && OldProperty(was.bodies[id], key) == oldValue
    case RationaleChanged(id, oldRationale, newRationale) =>
      && id in was.bodies && id in now.bodies && was.bodies[id].rationale == oldRationale != newRationale
      && now.bodies[id].rationale == newRationale
    case EdgeCreated(source, target, kind) =>
      Edge(source, target, kind) !in was.edges && Edge(source, target, kind) in now.edges
    case EdgeDeleted(source, target, kind) =>
      Edge(source, target, kind) in was.edges && Edge(source, target, kind) !in now.edges
    case TextModelApplied(_) => false
    case AutonomyLevelChanged(_, _, _) => false
  }

  ghost predicate AllTell(was: Snapshot, now: Snapshot, diff: seq<DiffEntry>) {
    forall d :: d in diff ==> Tells(was, now, d)
  }

  lemma OneMoreTells(was: Snapshot, now: Snapshot, diff: seq<DiffEntry>, d: DiffEntry)
    requires AllTell(was, now, diff) && Tells(was, now, d)
    ensures AllTell(was, now, diff + [d])
  {
    hide Tells;
  }

  lemma BothTell(was: Snapshot, now: Snapshot, a: seq<DiffEntry>, b: seq<DiffEntry>)
    requires AllTell(was, now, a) && AllTell(was, now, b)
    ensures AllTell(was, now, a + b)
  {
    hide Tells;
  }

  lemma NothingTold(was: Snapshot, now: Snapshot)
    ensures AllTell(was, now, [])
  {
  }

  lemma ReplayOneMore(s: Snapshot, diff: seq<DiffEntry>, d: DiffEntry)
    ensures ApplyDiffs(s, diff + [d]) == ApplyDiff(ApplyDiffs(s, diff), d)
  {
    hide ApplyDiff;
    assert (diff + [d])[..|diff|] == diff;
  }

  // ----- What replay can tell -----

  /** The elements and bodies of the old snapshot that the new one has no element for. */
  function Gone(was: Snapshot, now: Snapshot): set<Id> {
    was.elements.Keys - now.elements.Keys
  }

  function Merged(was: ModelElement, now: ModelElement): ModelElement {
    was.(name := now.name, active := now.active, origin := now.origin)
  }

  /** An element both snapshots have takes the new name, state and origin; another is active and a person's. */
  function Retold(was: Snapshot, now: Snapshot, id: Id): ModelElement
    requires id in now.elements
  {
    if id in was.elements then Merged(was.elements[id], now.elements[id])
    else ModelElement(id, now.elements[id].kind, now.elements[id].name, true, Human)
  }

  function ElementsSoFar(was: Snapshot, now: Snapshot, done: set<Id>): map<Id, ModelElement>
    requires done <= now.elements.Keys
  {
    map id | id in was.elements.Keys + done :: if id in done then Retold(was, now, id) else was.elements[id]
  }

  /** A snapshot without some elements, their bodies and their edges. */
  function Without(s: Snapshot, ids: set<Id>): Snapshot {
    Snapshot(s.elements - ids, (set e | e in s.edges && e.source !in ids && e.target !in ids), s.bodies - ids)
  }

  /** The properties that have a new value. */
  function Changed(was: Body, now: Body): map<string, string> {
    map key | key in now.properties && now.properties[key] != OldProperty(was, key) :: now.properties[key]
  }

  predicate SameBody(was: Body, now: Body) {
    Changed(was, now) == map[] && was.rationale == now.rationale
  }

  /** A body replayed on top of another. */
  function OnTop(base: Body, was: Body, now: Body): Body {
    Body(if was.rationale != now.rationale then now.rationale else base.rationale, base.properties + Changed(was, now))
  }

  function EmptyBody(): Body {
    Body(None, map[])
  }

  predicate Compared(was: Snapshot, now: Snapshot, id: Id) {
    id in was.bodies && id in now.bodies && !SameBody(was.bodies[id], now.bodies[id])
  }

  /** The bodies after those of some elements have been compared. */
  function BodiesSoFar(bodies: map<Id, Body>, was: Snapshot, now: Snapshot, done: set<Id>): map<Id, Body> {
    map id | id in bodies.Keys + (set id | id in done && Compared(was, now, id)) ::
      if id in done && Compared(was, now, id)
      then OnTop(if id in bodies then bodies[id] else EmptyBody(), was.bodies[id], now.bodies[id])
      else bodies[id]
  }

  /** What the replay of a snapshot's changes makes of the old snapshot. */
  function Restored(was: Snapshot, now: Snapshot): Snapshot {
    var left := Without(was, Gone(was, now));
    Snapshot(map id | id in now.elements :: Retold(was, now, id),
             (left.edges + (now.edges - was.edges)) - (was.edges - now.edges),
             BodiesSoFar(left.bodies, was, now, now.bodies.Keys))
  }

  // ----- Comparing -----

  lemma ElementRetold(was: Snapshot, now: Snapshot, done: set<Id>, id: Id)
    requires done <= now.elements.Keys && id in now.elements && id !in done
    ensures ElementsSoFar(was, now, done + {id}) == ElementsSoFar(was, now, done)[id := Retold(was, now, id)]
    ensures id in ElementsSoFar(was, now, done) <==> id in was.elements
    ensures id in was.elements ==> ElementsSoFar(was, now, done)[id] == was.elements[id]
  {
  }

  lemma NothingRetold(was: Snapshot, now: Snapshot)
    ensures was.(elements := ElementsSoFar(was, now, {})) == was
  {
    assert ElementsSoFar(was, now, {}) == was.elements;
  }

  function With(s: Snapshot, id: Id, e: ModelElement): Snapshot {
    s.(elements := s.elements[id := e])
  }

  /** An entry that sets one thing of an element. */
  lemma NameSet(s: Snapshot, diff: seq<DiffEntry>, id: Id, e: ModelElement, was: string, name: string)
    requires ApplyDiffs(s, diff) == With(s, id, e)
    ensures ApplyDiffs(s, diff + [ElementRenamed(id, was, name)]) == With(s, id, e.(name := name))
  {
    hide ApplyDiffs;
    ReplayOneMore(s, diff, ElementRenamed(id, was, name));
  }

  lemma ActiveSet(s: Snapshot, diff: seq<DiffEntry>, id: Id, e: ModelElement, active: bool)
    requires ApplyDiffs(s, diff) == With(s, id, e)
    ensures ApplyDiffs(s, diff + [ElementActiveChanged(id, active)]) == With(s, id, e.(active := active))
  {
    hide ApplyDiffs;
    ReplayOneMore(s, diff, ElementActiveChanged(id, active));
  }

  lemma OriginSet(s: Snapshot, diff: seq<DiffEntry>, id: Id, e: ModelElement, origin: Origin)
    requires ApplyDiffs(s, diff) == With(s, id, e)
    ensures ApplyDiffs(s, diff + [ElementOriginChanged(id, origin)]) == With(s, id, e.(origin := origin))
  {
    hide ApplyDiffs;
    ReplayOneMore(s, diff, ElementOriginChanged(id, origin));
  }

  lemma NothingSet(s: Snapshot, id: Id)
    requires id in s.elements
    ensures With(s, id, s.elements[id]) == s
  {
    assert s.elements[id := s.elements[id]] == s.elements;
  }

  lemma Created(s: Snapshot, id: Id, kind: NodeKind, name: string)
    requires id !in s.elements
    ensures ApplyDiffs(s, [ElementCreated(id, kind, name)]) == With(s, id, ModelElement(id, kind, name, true, Human))
  {
    hide ApplyDiffs;
    ReplayNone(s);
    ReplayOneMore(s, [], ElementCreated(id, kind, name));
    assert [] + [ElementCreated(id, kind, name)] == [ElementCreated(id, kind, name)];
  }

  lemma ReplayNone(s: Snapshot)
    ensures ApplyDiffs(s, []) == s
  {
  }

  lemma CreatedTells(was: Snapshot, now: Snapshot, id: Id)
    requires id !in was.elements && id in now.elements
    ensures AllTell(was, now, [ElementCreated(id, now.elements[id].kind, now.elements[id].name)])
  {
  }

  method CompareElement(was: Snapshot, now: Snapshot, id: Id, ghost s: Snapshot) returns (entries: seq<DiffEntry>)
    requires id in now.elements && (id in s.elements <==> id in was.elements)
    requires id in was.elements ==> s.elements[id] == was.elements[id]
    ensures ApplyDiffs(s, entries) == With(s, id, Retold(was, now, id))
    ensures AllTell(was, now, entries)
  {
    hide ApplyDiff, ApplyDiffs, With, AllTell;
    entries := [];
    NothingTold(was, now);
    ReplayNone(s);
    var element := now.elements[id];
    if id in was.elements {
      var prev := was.elements[id];
      ghost var e := prev;
      NothingSet(s, id);
      if prev.name != element.name {
        var d := ElementRenamed(id, prev.name, element.name);
        NameSet(s, entries, id, e, prev.name, element.name);
        OneMoreTells(was, now, entries, d);
        entries := entries + [d];
        e := e.(name := element.name);
      }
      if prev.active != element.active {
        var d := ElementActiveChanged(id, element.active);
        ActiveSet(s, entries, id, e, element.active);
        OneMoreTells(was, now, entries, d);
        entries := entries + [d];
        e := e.(active := element.active);
      }
      if prev.origin != element.origin {
        var d := ElementOriginChanged(id, element.origin);
        OriginSet(s, entries, id, e, element.origin);
        OneMoreTells(was, now, entries, d);
        entries := entries + [d];
        e := e.(origin := element.origin);
      }
      assert e == Retold(was, now, id);
    } else {
      Created(s, id, element.kind, element.name);
      CreatedTells(was, now, id);
      entries := [ElementCreated(id, element.kind, element.name)];
    }
  }

  lemma {:induction false} ReplayTwo(s: Snapshot, a: seq<DiffEntry>, b: seq<DiffEntry>)
    ensures ApplyDiffs(s, a + b) == ApplyDiffs(ApplyDiffs(s, a), b)
    decreases |b|
  {
    hide ApplyDiff;
    if b == [] {
      assert a + b == a;
    } else {
      assert (a + b)[..|a + b| - 1] == a + b[..|b| - 1];
      ReplayTwo(s, a, b[..|b| - 1]);
    }
  }

  method CompareElements(was: Snapshot, now: Snapshot) returns (diff: seq<DiffEntry>)
    ensures ApplyDiffs(was, diff) == was.(elements := ElementsSoFar(was, now, now.elements.Keys))
    ensures AllTell(was, now, diff)
  {
    hide AllTell, ElementsSoFar, ApplyDiff, Retold;
    diff := [];
    NothingTold(was, now);
    var todo := now.elements.Keys;
    ghost var done: set<Id> := {};
    NothingRetold(was, now);
    while todo != {}
      invariant todo <= now.elements.Keys && done == now.elements.Keys - todo && AllTell(was, now, diff)
      invariant ApplyDiffs(was, diff) == was.(elements := ElementsSoFar(was, now, done))
      decreases |todo|
    {
      var id :| id in todo;
      ghost var s := ApplyDiffs(was, diff);
      ElementRetold(was, now, done, id);
      var entries := CompareElement(was, now, id, s);
      ReplayTwo(was, diff, entries);
      BothTell(was, now, diff, entries);
      diff := diff + entries;
      done := done + {id};
      todo := todo - {id};
    }
    assert done == now.elements.Keys;
  }

  lemma OneLess(s: Snapshot, diff: seq<DiffEntry>, ids: set<Id>, id: Id, kind: NodeKind, name: string)
    requires ApplyDiffs(s, diff) == Without(s, ids)
    ensures ApplyDiffs(s, diff + [ElementDeleted(id, kind, name)]) == Without(s, ids + {id})
  {
    hide ApplyDiffs;
    ReplayOneMore(s, diff, ElementDeleted(id, kind, name));
    var a, b := ApplyDiff(Without(s, ids), ElementDeleted(id, kind, name)), Without(s, ids + {id});
    assert a.elements == b.elements;
    assert a.bodies == b.bodies;
  }

  lemma DeletionTells(was: Snapshot, now: Snapshot, diff: seq<DiffEntry>, id: Id)
    requires AllTell(was, now, diff) && id in Gone(was, now)
    ensures AllTell(was, now, diff + [ElementDeleted(id, was.elements[id].kind, was.elements[id].name)])
  {
    hide AllTell;
    OneMoreTells(was, now, diff, ElementDeleted(id, was.elements[id].kind, was.elements[id].name));
  }

  lemma GoneWere(was: Snapshot, now: Snapshot)
    ensures forall id :: id in Gone(was, now) ==> id in was.elements
  {
  }

  lemma WithoutNone(s: Snapshot)
    ensures Without(s, {}) == s
  {
    assert s.elements - {} == s.elements && s.bodies - {} == s.bodies;
  }

  method CompareDeleted(was: Snapshot, now: Snapshot, ghost s: Snapshot) returns (entries: seq<DiffEntry>)
    ensures ApplyDiffs(s, entries) == Without(s, Gone(was, now))
    ensures AllTell(was, now, entries)
  {
    hide ApplyDiff, ApplyDiffs, Without, AllTell, Tells, Gone;
    entries := [];
    NothingTold(was, now);
    ReplayNone(s);
    GoneWere(was, now);
    var todo := Gone(was, now);
    ghost var done: set<Id> := {};
    WithoutNone(s);
    while todo != {}
      invariant todo <= Gone(was, now) && done == Gone(was, now) - todo && AllTell(was, now, entries)
      invariant ApplyDiffs(s, entries) == Without(s, done)
      decreases |todo|
    {
      var id :| id in todo;
      OneLess(s, entries, done, id, was.elements[id].kind, was.elements[id].name);
      DeletionTells(was, now, entries, id);
      entries := entries + [ElementDeleted(id, was.elements[id].kind, was.elements[id].name)];
      done := done + {id};
      todo := todo - {id};
    }
    assert done == Gone(was, now);
  }

  /** The changed properties among some keys. */
  function ChangedIn(was: Body, now: Body, keys: set<string>): map<string, string> {
    map key | key in Changed(was, now) && key in keys :: Changed(was, now)[key]
  }

  function PropertiesOnTop(s: Snapshot, id: Id, changed: map<string, string>): Snapshot {
    if changed == map[] then s
    else s.(bodies := s.bodies[id := BodyOf(s, id).(properties := BodyOf(s, id).properties + changed)])
  }

  lemma ChangedInMore(was: Body, now: Body, keys: set<string>, key: string)
    requires key in Changed(was, now) && key !in keys
    ensures ChangedIn(was, now, keys + {key}) == ChangedIn(was, now, keys)[key := now.properties[key]]
  {
  }

  lemma PropertyOnTop(s: Snapshot, id: Id, changed: map<string, string>, key: string, was: string, value: string)
    ensures ApplyDiff(PropertiesOnTop(s, id, changed), PropertyChanged(id, key, was, value))
         == PropertiesOnTop(s, id, changed[key := value])
  {
    var properties := BodyOf(s, id).properties;
    assert properties + changed[key := value] == (properties + changed)[key := value];
    assert changed == map[] ==> properties + changed == properties;
    assert key in changed[key := value];
  }

  lemma OneMoreProperty(s: Snapshot, diff: seq<DiffEntry>, id: Id, was: Body, now: Body, keys: set<string>, key: string)
    requires key in Changed(was, now) && key !in keys
    requires ApplyDiffs(s, diff) == PropertiesOnTop(s, id, ChangedIn(was, now, keys))
    ensures ApplyDiffs(s, diff + [PropertyChanged(id, key, OldProperty(was, key), now.properties[key])])
         == PropertiesOnTop(s, id, ChangedIn(was, now, keys + {key}))
  {
    hide ApplyDiffs, ApplyDiff, PropertiesOnTop, ChangedIn, Changed, OldProperty;
    KeyIsNew(was, now, key);
    ReplayOneMore(s, diff, PropertyChanged(id, key, OldProperty(was, key), now.properties[key]));
    ChangedInMore(was, now, keys, key);
    PropertyOnTop(s, id, ChangedIn(was, now, keys), key, OldProperty(was, key), now.properties[key]);
  }

  lemma KeyIsNew(was: Body, now: Body, key: string)
    requires key in Changed(was, now)
    ensures key in now.properties
  {
  }

  lemma SamePropertyIsNotChanged(was: Body, now: Body, keys: set<string>, key: string)
    requires key !in Changed(was, now)
    ensures ChangedIn(was, now, keys + {key}) == ChangedIn(was, now, keys)
  {
  }

  lemma AllKeysAreChanged(was: Body, now: Body)
    ensures ChangedIn(was, now, now.properties.Keys) == Changed(was, now) && ChangedIn(was, now, {}) == map[]
  {
  }

  lemma RationaleOnTop(s: Snapshot, id: Id, was: Body, now: Body)
    requires was.rationale != now.rationale
    ensures ApplyDiff(PropertiesOnTop(s, id, Changed(was, now)), RationaleChanged(id, was.rationale, now.rationale))
         == s.(bodies := s.bodies[id := OnTop(BodyOf(s, id), was, now)])
  {
    assert BodyOf(s, id).properties + map[] == BodyOf(s, id).properties;
  }

  method CompareBody(was: Snapshot, now: Snapshot, id: Id, ghost s: Snapshot) returns (entries: seq<DiffEntry>)
    requires id in was.bodies && id in now.bodies
    ensures AllTell(was, now, entries)
    ensures ApplyDiffs(s, entries) ==
            if SameBody(was.bodies[id], now.bodies[id]) then s
            else s.(bodies := s.bodies[id := OnTop(BodyOf(s, id), was.bodies[id], now.bodies[id])])
  {
    hide ApplyDiff, ApplyDiffs, PropertiesOnTop, ChangedIn, AllTell, OnTop;
    entries := [];
    NothingTold(was, now);
    var old_, new_ := was.bodies[id], now.bodies[id];
    var todo := new_.properties.Keys;
    ghost var done: set<string> := {};
    AllKeysAreChanged(old_, new_);
    ReplayNone(s);
    NoProperties(s, id);
    while todo != {}
      invariant todo <= new_.properties.Keys && done == new_.properties.Keys - todo && AllTell(was, now, entries)
      invariant ApplyDiffs(s, entries) == PropertiesOnTop(s, id, ChangedIn(old_, new_, done))
      decreases |todo|
    {
      var key :| key in todo;
      var oldValue := OldProperty(old_, key);
      if oldValue != new_.properties[key] {
        var d := PropertyChanged(id, key, oldValue, new_.properties[key]);
        OneMoreProperty(s, entries, id, old_, new_, done, key);
        OneMoreTells(was, now, entries, d);
        entries := entries + [d];
      } else {
        SamePropertyIsNotChanged(old_, new_, done, key);
      }
      done := done + {key};
      todo := todo - {key};
    }
    assert done == new_.properties.Keys;
    if old_.rationale != new_.rationale {
      var d := RationaleChanged(id, old_.rationale, new_.rationale);
      ReplayOneMore(s, entries, d);
      RationaleOnTop(s, id, old_, new_);
      OneMoreTells(was, now, entries, d);
      entries := entries + [d];
    } else {
      SameRationale(s, id, old_, new_);
    }
  }

  lemma NoProperties(s: Snapshot, id: Id)
    ensures PropertiesOnTop(s, id, map[]) == s
  {
  }

  lemma SameRationale(s: Snapshot, id: Id, was: Body, now: Body)
    requires was.rationale == now.rationale
    ensures PropertiesOnTop(s, id, Changed(was, now)) ==
            if SameBody(was, now) then s else s.(bodies := s.bodies[id := OnTop(BodyOf(s, id), was, now)])
  {
  }

  lemma NextBody(bodies: map<Id, Body>, was: Snapshot, now: Snapshot, done: set<Id>, id: Id)
    requires id !in done
    ensures id in was.bodies && id in now.bodies && !SameBody(was.bodies[id], now.bodies[id]) ==>
      BodiesSoFar(bodies, was, now, done + {id}) ==
      BodiesSoFar(bodies, was, now, done)[
        id := OnTop(if id in bodies then bodies[id] else EmptyBody(), was.bodies[id], now.bodies[id])]
    ensures !Compared(was, now, id) ==>
            BodiesSoFar(bodies, was, now, done + {id}) == BodiesSoFar(bodies, was, now, done)
    ensures id in BodiesSoFar(bodies, was, now, done) <==> id in bodies
    ensures id in bodies ==> BodiesSoFar(bodies, was, now, done)[id] == bodies[id]
  {
    hide SameBody, OnTop;
  }

  lemma NoBodies(bodies: map<Id, Body>, was: Snapshot, now: Snapshot)
    ensures BodiesSoFar(bodies, was, now, {}) == bodies
  {
  }

  method CompareBodies(was: Snapshot, now: Snapshot, ghost s: Snapshot) returns (diff: seq<DiffEntry>)
    ensures ApplyDiffs(s, diff) == s.(bodies := BodiesSoFar(s.bodies, was, now, now.bodies.Keys))
    ensures AllTell(was, now, diff)
  {
    hide AllTell, BodiesSoFar, ApplyDiff, SameBody, OnTop;
    diff := [];
    NothingTold(was, now);
    var todo := now.bodies.Keys;
    ghost var done: set<Id> := {};
    NoBodies(s.bodies, was, now);
    while todo != {}
      invariant todo <= now.bodies.Keys && done == now.bodies.Keys - todo && AllTell(was, now, diff)
      invariant ApplyDiffs(s, diff) == s.(bodies := BodiesSoFar(s.bodies, was, now, done))
      decreases |todo|
    {
      var id :| id in todo;
      NextBody(s.bodies, was, now, done, id);
      if id in was.bodies {
        var entries := CompareBody(was, now, id, ApplyDiffs(s, diff));
        ReplayTwo(s, diff, entries);
        BothTell(was, now, diff, entries);
        diff := diff + entries;
      }
      done := done + {id};
      todo := todo - {id};
    }
    assert done == now.bodies.Keys;
  }

  lemma EdgeAdded(s: Snapshot, done: set<Edge>, e: Edge)
    ensures ApplyDiff(s.(edges := s.edges + done), EdgeCreated(e.source, e.target, e.kind)) ==
            s.(edges := s.edges + (done + {e}))
    ensures ApplyDiff(s.(edges := s.edges - done), EdgeDeleted(e.source, e.target, e.kind)) ==
            s.(edges := s.edges - (done + {e}))
  {
    assert s.edges + (done + {e}) == (s.edges + done) + {e};
    assert s.edges - (done + {e}) == (s.edges - done) - {e};
  }

  lemma NoEdges(s: Snapshot)
    ensures s.(edges := s.edges + {}) == s && s.(edges := s.edges - {}) == s
  {
    assert s.edges + {} == s.edges && s.edges - {} == s.edges;
  }

  method CompareNewEdges(was: Snapshot, now: Snapshot, ghost s: Snapshot) returns (diff: seq<DiffEntry>)
    ensures ApplyDiffs(s, diff) == s.(edges := s.edges + (now.edges - was.edges))
    ensures AllTell(was, now, diff)
  {
    hide ApplyDiff, AllTell;
    diff := [];
    NothingTold(was, now);
    var todo := now.edges - was.edges;
    ghost var done: set<Edge> := {};
    NoEdges(s);
    while todo != {}
      invariant todo <= now.edges - was.edges && done == (now.edges - was.edges) - todo && AllTell(was, now, diff)
      invariant ApplyDiffs(s, diff) == s.(edges := s.edges + done)
      decreases |todo|
    {
      var e :| e in todo;
      var d := EdgeCreated(e.source, e.target, e.kind);
      ReplayOneMore(s, diff, d);
      EdgeAdded(s, done, e);
      OneMoreTells(was, now, diff, d);
      diff := diff + [d];
      done := done + {e};
      todo := todo - {e};
    }
    assert done == now.edges - was.edges;
  }

  method CompareOldEdges(was: Snapshot, now: Snapshot, ghost s: Snapshot) returns (diff: seq<DiffEntry>)
    ensures ApplyDiffs(s, diff) == s.(edges := s.edges - (was.edges - now.edges))
    ensures AllTell(was, now, diff)
  {
    hide ApplyDiff, AllTell;
    diff := [];
    NothingTold(was, now);
    var todo := was.edges - now.edges;
    ghost var done: set<Edge> := {};
    NoEdges(s);
    while todo != {}
      invariant todo <= was.edges - now.edges && done == (was.edges - now.edges) - todo && AllTell(was, now, diff)
      invariant ApplyDiffs(s, diff) == s.(edges := s.edges - done)
      decreases |todo|
    {
      var e :| e in todo;
      var d := EdgeDeleted(e.source, e.target, e.kind);
      ReplayOneMore(s, diff, d);
      EdgeAdded(s, done, e);
      OneMoreTells(was, now, diff, d);
      diff := diff + [d];
      done := done + {e};
      todo := todo - {e};
    }
    assert done == was.edges - now.edges;
  }

  /** Elements first, then deletions, bodies and edges; replaying the entries on the old snapshot makes of it all
      that entries can tell of the new one. */
  method ComputeSnapshotDiff(was: Snapshot, now: Snapshot) returns (diff: seq<DiffEntry>)
    ensures ApplyDiffs(was, diff) == Restored(was, now)
    ensures OwnIds(was) && OwnIds(now) ==> (ApplyDiffs(was, diff) == now <==> Tellable(was, now))
    ensures AllTell(was, now, diff)
  {
    hide AllTell, OwnIds, Tellable, BodiesSoFar, ApplyDiff, ElementsSoFar, Without, Retold;
    diff := CompareElements(was, now);
    DeletedIs(was, now);
    var more := CompareDeleted(was, now, ApplyDiffs(was, diff));
    ReplayTwo(was, diff, more);
    BothTell(was, now, diff, more);
    diff := diff + more;
    more := CompareBodies(was, now, ApplyDiffs(was, diff));
    ReplayTwo(was, diff, more);
    BothTell(was, now, diff, more);
    diff := diff + more;
    more := CompareNewEdges(was, now, ApplyDiffs(was, diff));
    ReplayTwo(was, diff, more);
    BothTell(was, now, diff, more);
    diff := diff + more;
    more := CompareOldEdges(was, now, ApplyDiffs(was, diff));
    ReplayTwo(was, diff, more);
    BothTell(was, now, diff, more);
    diff := diff + more;
    if OwnIds(was) && OwnIds(now) {
      RestoredIff(was, now);
    }
  }

  lemma DeletedIs(was: Snapshot, now: Snapshot)
    ensures var s := Without(was.(elements := ElementsSoFar(was, now, now.elements.Keys)), Gone(was, now));
            && s.elements == (map id | id in now.elements :: Retold(was, now, id))
            && s.edges == Without(was, Gone(was, now)).edges && s.bodies == Without(was, Gone(was, now)).bodies
  {
    hide Retold;
  }

  // ----- When nothing is lost -----

  /** Elements are kept under their own ids. */
  ghost predicate OwnIds(s: Snapshot) {
    forall id :: id in s.elements ==> s.elements[id].id == id
  }

  /** A body that can be told from an older one: no property has been dropped, and none that is new is null. */
  ghost predicate BodyTold(was: Body, now: Body) {
    && (forall key :: key in was.properties ==> key in now.properties)
    && (forall key :: key in now.properties && key !in was.properties ==> now.properties[key] != JsonNull)
  }

  /** A body that outlives its element can be told only if all of it is new. */
  ghost predicate AllNew(was: Body, now: Body) {
    && (forall key :: key in now.properties ==> now.properties[key] != OldProperty(was, key))
    && (now.rationale == was.rationale ==> now.rationale == None && now.properties != map[])
  }

  ghost predicate BodyComesBack(was: Snapshot, now: Snapshot, id: Id)
    requires id in now.bodies
  {
    id in was.bodies &&
    if id in Gone(was, now) then AllNew(was.bodies[id], now.bodies[id]) else BodyTold(was.bodies[id], now.bodies[id])
  }

  /** Kinds have not changed, new elements are active and a person's, no edge of both outlives an end, and bodies
      can be told. */
  ghost predicate Tellable(was: Snapshot, now: Snapshot) {
    && (forall id :: id in was.elements && id in now.elements ==> was.elements[id].kind == now.elements[id].kind)
    && (forall id :: id in now.elements && id !in was.elements ==>
          now.elements[id].active && now.elements[id].origin == Human)
    && (forall e :: e in was.edges && e in now.edges ==> e.source !in Gone(was, now) && e.target !in Gone(was, now))
    && (forall id :: id in was.bodies && id !in Gone(was, now) ==> id in now.bodies)
    && (forall id :: id in now.bodies ==> BodyComesBack(was, now, id))
  }

  lemma BodyToldIff(was: Body, now: Body)
    ensures (if SameBody(was, now) then was else OnTop(was, was, now)) == now <==> BodyTold(was, now)
  {
    var top := OnTop(was, was, now);
    assert forall key :: key in now.properties && key in Changed(was, now) ==>
           top.properties[key] == now.properties[key];
    if BodyTold(was, now) {
      assert top.properties == now.properties;
      if SameBody(was, now) {
        assert forall key :: key in now.properties ==> key !in Changed(was, now);
        assert was.properties == now.properties;
      }
    } else if key :| key in was.properties && key !in now.properties {
      assert key in top.properties;
    } else {
      var key :| key in now.properties && key !in was.properties && now.properties[key] == JsonNull;
      assert key !in top.properties;
    }
  }

  lemma AllNewIff(was: Body, now: Body)
    ensures !SameBody(was, now) && OnTop(EmptyBody(), was, now) == now <==> AllNew(was, now)
  {
    var top := OnTop(EmptyBody(), was, now);
    assert top.properties == Changed(was, now);
    if AllNew(was, now) {
      assert Changed(was, now) == now.properties;
      if now.properties != map[] {
        var key :| key in now.properties;
        assert key in Changed(was, now);
      }
    }
    if !SameBody(was, now) && top == now {
      assert forall key :: key in now.properties ==> key in Changed(was, now);
    }
  }

  lemma ElementsIff(was: Snapshot, now: Snapshot)
    requires OwnIds(was) && OwnIds(now)
    ensures Restored(was, now).elements == now.elements <==>
            ((forall id :: id in was.elements && id in now.elements ==>
                was.elements[id].kind == now.elements[id].kind) &&
             (forall id :: id in now.elements && id !in was.elements ==>
                now.elements[id].active && now.elements[id].origin == Human))
  {
    var elements := Restored(was, now).elements;
    assert elements.Keys == now.elements.Keys;
    if elements == now.elements {
      forall id | id in now.elements
        ensures Retold(was, now, id) == now.elements[id]
      {
        assert elements[id] == Retold(was, now, id);
      }
    }
  }

  lemma EdgesIff(was: Snapshot, now: Snapshot)
    ensures Restored(was, now).edges == now.edges <==>
            (forall e :: e in was.edges && e in now.edges ==>
               e.source !in Gone(was, now) && e.target !in Gone(was, now))
  {
    var edges := Restored(was, now).edges;
    forall e
      ensures e in edges <==>
              (e in now.edges && (e in was.edges ==> e.source !in Gone(was, now) && e.target !in Gone(was, now)))
    {
    }
  }

  lemma BodiesIff(was: Snapshot, now: Snapshot)
    ensures Restored(was, now).bodies == now.bodies <==>
            ((forall id :: id in was.bodies && id !in Gone(was, now) ==> id in now.bodies) &&
             (forall id :: id in now.bodies ==> BodyComesBack(was, now, id)))
  {
    hide SameBody, OnTop, AllNew, BodyTold;
    var bodies := Restored(was, now).bodies;
    forall id
      ensures id in bodies <==> (id in was.bodies && id !in Gone(was, now)) || Compared(was, now, id)
      ensures id in bodies && id in now.bodies ==> (bodies[id] == now.bodies[id] <==> BodyComesBack(was, now, id))
      ensures id in now.bodies && id !in bodies ==> !BodyComesBack(was, now, id)
    {
      if id in was.bodies && id in now.bodies {
        BodyToldIff(was.bodies[id], now.bodies[id]);
        AllNewIff(was.bodies[id], now.bodies[id]);
      }
    }
    if forall id :: id in now.bodies ==> BodyComesBack(was, now, id) {
      assert forall id :: id in now.bodies ==> id in bodies && bodies[id] == now.bodies[id];
      if forall id :: id in was.bodies && id !in Gone(was, now) ==> id in now.bodies {
        assert bodies.Keys == now.bodies.Keys;
        assert bodies == now.bodies;
      }
    }
  }

  /** Replaying what changed on the old snapshot gives the new one if and only if the new one can be told. */
  lemma RestoredIff(was: Snapshot, now: Snapshot)
    requires OwnIds(was) && OwnIds(now)
    ensures Restored(was, now) == now <==> Tellable(was, now)
  {
    hide Restored, OwnIds, AllNew, BodyTold, Gone;
    ElementsIff(was, now);
    EdgesIff(was, now);
    BodiesIff(was, now);
  }
}
