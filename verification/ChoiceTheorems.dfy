/** What resolving choices promises, told on the stored properties: when a request is accepted, what it is refused
    for, what it stores, and which rules every run keeps. */
module ChoiceTheorems {
  import opened SysmlModel
  import opened ChoiceResolution

  // ----- Stored properties -----

  /** An element's body has this property with this value. */
  predicate Has(bodies: Bodies, id: Id, key: string, v: Value) {
    id in bodies && key in bodies[id] && bodies[id][key] == v
  }

  predicate HasText(bodies: Bodies, id: Id, key: string, text: string) {
    Has(bodies, id, key, VString(text))
  }

  predicate Settled(bodies: Bodies, id: Id) {
    HasText(bodies, id, "resolutionState", "resolved")
  }

  predicate Field(v: Value, key: string, w: Value) {
    v.VObject? && key in v.fields && v.fields[key] == w
  }

  /** What a cardinality allows: a range no fewer than its least and no more than its most, a list that names any
      number just the numbers it names; everything else anything. */
  ghost predicate Permits(cardinality: Value, count: nat) {
    && (Field(cardinality, "type", VString("range")) ==>
          && (forall min: nat :: Field(cardinality, "min", VNat(min)) ==> min <= count)
          && (forall max: nat :: Field(cardinality, "max", VNat(max)) ==> count <= max))
    && (Field(cardinality, "type", VString("list")) ==>
          forall items, n: nat :: Field(cardinality, "allowed", VArray(items)) && VNat(n) in items ==>
            VNat(count) in items)
  }

  /** Each of the two elements a connection choice names as its prerequisites is resolved. */
  ghost predicate PrerequisitesSettled(bodies: Bodies, id: Id) {
    forall p ::
      HasText(bodies, id, "sourceSelectionChoiceId", p) || HasText(bodies, id, "targetSelectionChoiceId", p) ==>
      Settled(bodies, p)
  }

  ghost predicate CountPermitted(bodies: Bodies, id: Id, count: nat) {
    forall c :: Has(bodies, id, "cardinality", c) ==> Permits(c, count)
  }

  ghost predicate Offers(bodies: Bodies, id: Id, option: string) {
    exists items :: Has(bodies, id, "options", VArray(items)) && VString(option) in items
  }

  lemma SelectedIs(bodies: Bodies, id: Id)
    ensures forall o :: Selected(bodies, id) == Some(o) <==> HasText(bodies, id, "selectedOption", o)
    ensures Selected(bodies, id).None? <==> forall o :: !HasText(bodies, id, "selectedOption", o)
  {
    if Selected(bodies, id).Some? {
      assert HasText(bodies, id, "selectedOption", Selected(bodies, id).value);
    }
  }

  lemma SettledIs(bodies: Bodies, id: Id)
    ensures IsResolved(bodies, id) <==> Settled(bodies, id)
  {
    assert "unresolved"[0] != "resolved"[0];
  }

  lemma {:induction false} StringsAre(items: seq<Value>, o: string)
    ensures o in Strings(items) <==> VString(o) in items
    decreases |items|
  {
    if items != [] {
      StringsAre(items[..|items| - 1], o);
      assert items == items[..|items| - 1] + [items[|items| - 1]];
    }
  }

  lemma OffersIs(bodies: Bodies, id: Id, o: string)
    ensures o in OptionsOf(PropertiesOf(bodies, id)) <==> Offers(bodies, id, o)
  {
    var properties := PropertiesOf(bodies, id);
    if "options" in properties && properties["options"].VArray? {
      StringsAre(properties["options"].items, o);
      assert Has(bodies, id, "options", VArray(properties["options"].items));
    }
  }

  lemma {:induction false} NatsAre(items: seq<Value>, n: nat)
    ensures n in Nats(items) <==> VNat(n) in items
    decreases |items|
  {
    if items != [] {
      NatsAre(items[..|items| - 1], n);
      assert items == items[..|items| - 1] + [items[|items| - 1]];
    }
  }

  lemma RangePermits(c: Value, count: nat)
    requires Field(c, "type", VString("range"))
    ensures CountAllowed(c, count) <==> Permits(c, count)
  {
    assert |"range"| == 5 && |"list"| == 4;
    if NatField(c, "min").Some? {
      assert Field(c, "min", VNat(NatField(c, "min").value));
    }
    if NatField(c, "max").Some? {
      assert Field(c, "max", VNat(NatField(c, "max").value));
    }
  }

  lemma ListPermits(c: Value, count: nat)
    requires Field(c, "type", VString("list"))
    ensures CountAllowed(c, count) <==> Permits(c, count)
  {
    assert |"range"| == 5 && |"list"| == 4;
    if "allowed" in c.fields && c.fields["allowed"].VArray? {
      var items := c.fields["allowed"].items;
      assert Field(c, "allowed", VArray(items));
      NatsAre(items, count);
      forall n: nat
        ensures n in Nats(items) <==> VNat(n) in items
      {
        NatsAre(items, n);
      }
      if Nats(items) != [] {
        assert Nats(items)[0] in Nats(items);
      }
    }
  }

  /** The check of a count allows what the cardinality permits. */
  lemma CountIsPermitted(c: Value, count: nat)
    ensures CountAllowed(c, count) <==> Permits(c, count)
  {
    if Field(c, "type", VString("range")) {
      RangePermits(c, count);
    } else if Field(c, "type", VString("list")) {
      ListPermits(c, count);
    }
  }

  lemma CardinalityPermits(bodies: Bodies, id: Id, count: nat)
    ensures CountAllowed(CardinalityOf(PropertiesOf(bodies, id)), count) <==> CountPermitted(bodies, id, count)
  {
    hide CountAllowed, Permits;
    var properties := PropertiesOf(bodies, id);
    CountIsPermitted(CardinalityOf(properties), count);
    if "cardinality" in properties {
      assert Has(bodies, id, "cardinality", properties["cardinality"]);
    } else {
      NothingIsPermitted(count);
    }
  }

  lemma NothingIsPermitted(count: nat)
    ensures Permits(VOther, count)
  {
  }

  lemma PrerequisitesAre(bodies: Bodies, id: Id)
    ensures FirstUnready(PropertiesOf(bodies, id), bodies).None? <==> PrerequisitesSettled(bodies, id)
  {
    hide IsResolved, Settled;
    var properties := PropertiesOf(bodies, id);
    var source, target := TextAt(properties, "sourceSelectionChoiceId"), TextAt(properties, "targetSelectionChoiceId");
    if source.Some? {
      assert HasText(bodies, id, "sourceSelectionChoiceId", source.value);
      SettledIs(bodies, source.value);
    }
    if target.Some? {
      assert HasText(bodies, id, "targetSelectionChoiceId", target.value);
      SettledIs(bodies, target.value);
    }
    forall p
      ensures Settled(bodies, p) <==> IsResolved(bodies, p)
    {
      SettledIs(bodies, p);
    }
  }

  // ----- What stands against a selection -----

  /** The element at the other end of an edge that touches this one. */
  ghost predicate Across(source: Id, target: Id, id: Id, other: Id) {
    (source == id && other == target) || (source != id && target == id && other == source)
  }

  /** An incompatible element has a selected option. */
  ghost predicate Conflicts(e: Edge, bodies: Bodies, id: Id, other: Id) {
    Across(e.source, e.target, id, other) && exists o :: HasText(bodies, other, "selectedOption", o)
  }

  /** A linked element has another selected option. */
  ghost predicate Disagrees(e: LinkEdge, bodies: Bodies, id: Id, selected: string, other: Id) {
    && Across(e.source, e.target, id, other) && e.constraintType == Some("Linked")
    && exists o :: HasText(bodies, other, "selectedOption", o) && o != selected
  }

  /** The first of the edges that conflicts does so with this element. */
  ghost predicate FirstConflicting(edges: seq<Edge>, bodies: Bodies, id: Id, other: Id) {
    exists i :: 0 <= i < |edges| && Conflicts(edges[i], bodies, id, other)
                && forall j, x :: 0 <= j < i ==> !Conflicts(edges[j], bodies, id, x)
  }

  ghost predicate FirstDisagreeing(edges: seq<LinkEdge>, bodies: Bodies, id: Id, selected: string, other: Id) {
    exists i :: 0 <= i < |edges| && Disagrees(edges[i], bodies, id, selected, other)
                && forall j, x :: 0 <= j < i ==> !Disagrees(edges[j], bodies, id, selected, x)
  }

  lemma {:induction false} FirstConflictIs(edges: seq<Edge>, bodies: Bodies, id: Id)
    ensures FirstConflict(edges, bodies, id).None? <==>
            forall i, x :: 0 <= i < |edges| ==> !Conflicts(edges[i], bodies, id, x)
    ensures FirstConflict(edges, bodies, id).Some? ==>
            FirstConflicting(edges, bodies, id, FirstConflict(edges, bodies, id).value)
    decreases |edges|
  {
    hide Selected;
    if edges != [] {
      var e, rest := edges[0], edges[1..];
      FirstConflictIs(rest, bodies, id);
      var other := Other(e.source, e.target, id);
      SelectedIs(bodies, other);
      if (e.source == id || e.target == id) && Selected(bodies, other).Some? {
        assert Conflicts(edges[0], bodies, id, other);
      } else {
        assert forall x :: !Conflicts(edges[0], bodies, id, x);
        ConflictsShift(edges, bodies, id);
      }
    }
  }

  lemma ConflictsShift(edges: seq<Edge>, bodies: Bodies, id: Id)
    requires edges != [] && forall x :: !Conflicts(edges[0], bodies, id, x)
    ensures (forall i, x :: 0 <= i < |edges| ==> !Conflicts(edges[i], bodies, id, x)) <==>
            (forall i, x :: 0 <= i < |edges[1..]| ==> !Conflicts(edges[1..][i], bodies, id, x))
    ensures forall other :: FirstConflicting(edges[1..], bodies, id, other) ==>
            FirstConflicting(edges, bodies, id, other)
  {
    hide Conflicts;
    var rest := edges[1..];
    forall other | FirstConflicting(rest, bodies, id, other)
      ensures FirstConflicting(edges, bodies, id, other)
    {
      var i :| 0 <= i < |rest| && Conflicts(rest[i], bodies, id, other)
               && forall j, x :: 0 <= j < i ==> !Conflicts(rest[j], bodies, id, x);
      assert Conflicts(edges[i + 1], bodies, id, other);
      forall j, x | 0 <= j < i + 1
        ensures !Conflicts(edges[j], bodies, id, x)
      {
        if j > 0 {
          assert edges[j] == rest[j - 1];
        }
      }
    }
    if forall i, x :: 0 <= i < |rest| ==> !Conflicts(rest[i], bodies, id, x) {
      forall i, x | 0 <= i < |edges|
        ensures !Conflicts(edges[i], bodies, id, x)
      {
        if i > 0 {
          assert edges[i] == rest[i - 1];
        }
      }
    }
  }

  lemma {:induction false} FirstDisagreementIs(edges: seq<LinkEdge>, bodies: Bodies, id: Id, selected: string)
    ensures FirstDisagreement(edges, bodies, id, selected).None? <==>
            forall i, x :: 0 <= i < |edges| ==> !Disagrees(edges[i], bodies, id, selected, x)
    ensures FirstDisagreement(edges, bodies, id, selected).Some? ==>
            FirstDisagreeing(edges, bodies, id, selected, FirstDisagreement(edges, bodies, id, selected).value)
    decreases |edges|
  {
    hide Selected;
    if edges != [] {
      var e, rest := edges[0], edges[1..];
      FirstDisagreementIs(rest, bodies, id, selected);
      var other := Other(e.source, e.target, id);
      SelectedIs(bodies, other);
      if (e.source == id || e.target == id) && e.constraintType == Some("Linked")
         && Selected(bodies, other).Some? && Selected(bodies, other) != Some(selected) {
        assert HasText(bodies, other, "selectedOption", Selected(bodies, other).value);
        assert Disagrees(edges[0], bodies, id, selected, other);
      } else {
        assert forall x :: !Disagrees(edges[0], bodies, id, selected, x);
        DisagreesShift(edges, bodies, id, selected);
      }
    }
  }

  lemma DisagreesShift(edges: seq<LinkEdge>, bodies: Bodies, id: Id, selected: string)
    requires edges != [] && forall x :: !Disagrees(edges[0], bodies, id, selected, x)
    ensures (forall i, x :: 0 <= i < |edges| ==> !Disagrees(edges[i], bodies, id, selected, x)) <==>
            (forall i, x :: 0 <= i < |edges[1..]| ==> !Disagrees(edges[1..][i], bodies, id, selected, x))
    ensures forall other :: FirstDisagreeing(edges[1..], bodies, id, selected, other) ==>
              FirstDisagreeing(edges, bodies, id, selected, other)
  {
    hide Disagrees;
    var rest := edges[1..];
    forall other | FirstDisagreeing(rest, bodies, id, selected, other)
      ensures FirstDisagreeing(edges, bodies, id, selected, other)
    {
      var i :| 0 <= i < |rest| && Disagrees(rest[i], bodies, id, selected, other)
               && forall j, x :: 0 <= j < i ==> !Disagrees(rest[j], bodies, id, selected, x);
      assert Disagrees(edges[i + 1], bodies, id, selected, other);
      forall j, x | 0 <= j < i + 1
        ensures !Disagrees(edges[j], bodies, id, selected, x)
      {
        if j > 0 {
          assert edges[j] == rest[j - 1];
        }
      }
    }
    if forall i, x :: 0 <= i < |rest| ==> !Disagrees(rest[i], bodies, id, selected, x) {
      forall i, x | 0 <= i < |edges|
        ensures !Disagrees(edges[i], bodies, id, selected, x)
      {
        if i > 0 {
          assert edges[i] == rest[i - 1];
        }
      }
    }
  }

  // ----- Requests -----

  /** Nothing the element is incompatible with is selected, and what it is linked with agrees. */
  ghost predicate Unopposed(rules: Rules, bodies: Bodies, id: Id, selected: string) {
    && (forall i, x :: 0 <= i < |rules.incompatible| ==> !Conflicts(rules.incompatible[i], bodies, id, x))
    && (forall i, x :: 0 <= i < |rules.constraints| ==> !Disagrees(rules.constraints[i], bodies, id, selected, x))
  }

  /** What a request has to meet. */
  ghost predicate Acceptable(rules: Rules, bodies: Bodies, r: Request) {
    || (&& Choice(rules, r.id, SelectionChoice) && r.selectedOption.Some?
        && Offers(bodies, r.id, r.selectedOption.value) && Unopposed(rules, bodies, r.id, r.selectedOption.value))
    || (&& Choice(rules, r.id, ConnectionChoice)
        && PrerequisitesSettled(bodies, r.id) && CountPermitted(bodies, r.id, |r.connections|))
  }

  /** A request is accepted if and only if its element is a choice and it meets what is asked of that choice. */
  lemma AcceptedIff(rules: Rules, bodies: Bodies, r: Request)
    ensures ResolveChoice(rules, bodies, r).Done? <==> Acceptable(rules, bodies, r)
  {
    hide CountAllowed, OptionsOf, FirstUnready, FirstConflict, FirstDisagreement, Offers, PrerequisitesSettled,
         CountPermitted, Conflicts, Disagrees, Has;
    if r.selectedOption.Some? {
      OffersIs(bodies, r.id, r.selectedOption.value);
      FirstConflictIs(rules.incompatible, bodies, r.id);
      FirstDisagreementIs(rules.constraints, bodies, r.id, r.selectedOption.value);
    }
    PrerequisitesAre(bodies, r.id);
    CardinalityPermits(bodies, r.id, |r.connections|);
  }

  /** What a refused request is refused for. */
  ghost predicate RightlyRefused(rules: Rules, bodies: Bodies, r: Request, reason: Refusal) {
    match reason
    case NoSuchElement => r.id !in rules.kinds
    case NotAChoice =>
      r.id in rules.kinds && rules.kinds[r.id] != SelectionChoice && rules.kinds[r.id] != ConnectionChoice
    case OptionRequired => Choice(rules, r.id, SelectionChoice) && r.selectedOption.None?
    case NotAnOption =>
      && Choice(rules, r.id, SelectionChoice) && r.selectedOption.Some?
      && !Offers(bodies, r.id, r.selectedOption.value)
    case ConflictsWith(other) =>
      && Choice(rules, r.id, SelectionChoice) && r.selectedOption.Some?
      && Offers(bodies, r.id, r.selectedOption.value) && FirstConflicting(rules.incompatible, bodies, r.id, other)
    case DisagreesWith(other) =>
      && Choice(rules, r.id, SelectionChoice) && r.selectedOption.Some?
      && Offers(bodies, r.id, r.selectedOption.value)
      && (forall i, x :: 0 <= i < |rules.incompatible| ==> !Conflicts(rules.incompatible[i], bodies, r.id, x))
      && FirstDisagreeing(rules.constraints, bodies, r.id, r.selectedOption.value, other)
    case WaitsFor(p) =>
      && Choice(rules, r.id, ConnectionChoice) && !Settled(bodies, p)
      && (HasText(bodies, r.id, "sourceSelectionChoiceId", p) ||
          (HasText(bodies, r.id, "targetSelectionChoiceId", p) &&
           forall s :: HasText(bodies, r.id, "sourceSelectionChoiceId", s) ==> Settled(bodies, s)))
    case WrongCount =>
      && Choice(rules, r.id, ConnectionChoice) && PrerequisitesSettled(bodies, r.id)
      && !CountPermitted(bodies, r.id, |r.connections|)
  }

  lemma WaitsForIs(bodies: Bodies, id: Id)
    requires FirstUnready(PropertiesOf(bodies, id), bodies).Some?
    ensures var p := FirstUnready(PropertiesOf(bodies, id), bodies).value;
            && !Settled(bodies, p)
            && (HasText(bodies, id, "sourceSelectionChoiceId", p) ||
                (HasText(bodies, id, "targetSelectionChoiceId", p) &&
                 forall s :: HasText(bodies, id, "sourceSelectionChoiceId", s) ==> Settled(bodies, s)))
  {
    hide IsResolved, Settled;
    forall p
      ensures Settled(bodies, p) <==> IsResolved(bodies, p)
    {
      SettledIs(bodies, p);
    }
  }

  /** The reason given is the first that applies, and names the first element that stands against the request. */
  lemma RefusedFor(rules: Rules, bodies: Bodies, r: Request)
    requires ResolveChoice(rules, bodies, r).Refused?
    ensures RightlyRefused(rules, bodies, r, ResolveChoice(rules, bodies, r).reason)
  {
    hide CountAllowed, OptionsOf, FirstUnready, FirstConflict, FirstDisagreement, Offers, PrerequisitesSettled,
         CountPermitted, Conflicts, Disagrees, Has, FirstConflicting, FirstDisagreeing, Settled;
    if r.selectedOption.Some? {
      OffersIs(bodies, r.id, r.selectedOption.value);
      FirstConflictIs(rules.incompatible, bodies, r.id);
      FirstDisagreementIs(rules.constraints, bodies, r.id, r.selectedOption.value);
    }
    PrerequisitesAre(bodies, r.id);
    CardinalityPermits(bodies, r.id, |r.connections|);
    if FirstUnready(PropertiesOf(bodies, r.id), bodies).Some? {
      WaitsForIs(bodies, r.id);
    }
  }

  /** The stored pairs are the requested ones, in order, sources as sources and targets as targets. */
  ghost predicate ShowsPairs(v: Value, connections: seq<Pair>) {
    && v.VArray? && |v.items| == |connections|
    && forall i :: 0 <= i < |connections| ==>
         && v.items[i].VObject? && v.items[i].fields.Keys == {"source", "target"}
         && v.items[i].fields["source"] == VString(connections[i].source)
         && v.items[i].fields["target"] == VString(connections[i].target)
  }

  /** An accepted request marks its element resolved, stores the selected option or the connections, and changes
      nothing else. */
  lemma AcceptedStores(rules: Rules, bodies: Bodies, r: Request, after: Bodies)
    requires ResolveChoice(rules, bodies, r) == Done(after)
    ensures Settled(after, r.id)
    ensures rules.kinds[r.id] == SelectionChoice ==>
            r.selectedOption.Some? && HasText(after, r.id, "selectedOption", r.selectedOption.value)
    ensures rules.kinds[r.id] == ConnectionChoice ==>
            exists v :: Has(after, r.id, "resolvedConnections", v) && ShowsPairs(v, r.connections)
    ensures forall x, key, v ::
      (x != r.id || (key != "resolutionState" &&
                     key != if rules.kinds[r.id] == SelectionChoice then "selectedOption"
                       else "resolvedConnections")) ==>
      (Has(after, x, key, v) <==> Has(bodies, x, key, v))
  {
    hide Answer, ShowsPairs;
    AnswerIs(rules, bodies, r);
    var answer := Answer(rules, bodies, r).value;
    NotState();
    PairsAreShown(r.connections);
    if rules.kinds[r.id] == ConnectionChoice {
      assert Has(after, r.id, "resolvedConnections", PairValues(r.connections));
    }
  }

  lemma NotState()
    ensures "selectedOption" != "resolutionState" && "resolvedConnections" != "resolutionState"
  {
    AnswerIsNotState();
  }

  lemma AnswerIs(rules: Rules, bodies: Bodies, r: Request)
    requires Answer(rules, bodies, r).Done?
    ensures r.id in rules.kinds && (rules.kinds[r.id] == SelectionChoice || rules.kinds[r.id] == ConnectionChoice)
    ensures Answer(rules, bodies, r).value ==
            if rules.kinds[r.id] == SelectionChoice && r.selectedOption.Some?
            then ("selectedOption", VString(r.selectedOption.value))
            else ("resolvedConnections", PairValues(r.connections))
    ensures rules.kinds[r.id] == SelectionChoice ==> r.selectedOption.Some?
  {
    hide CheckSelection, CountAllowed, OptionsOf, FirstUnready, PairValues;
  }

  lemma PairsAreShown(connections: seq<Pair>)
    ensures ShowsPairs(PairValues(connections), connections)
  {
    forall i | 0 <= i < |connections|
      ensures PairValue(connections[i]).fields.Keys == {"source", "target"}
    {
    }
  }

  // ----- The rules -----

  predicate BothSelected(bodies: Bodies, x: Id, a: string, y: Id, b: string) {
    HasText(bodies, x, "selectedOption", a) && HasText(bodies, y, "selectedOption", b)
  }

  /** No two incompatible elements are both selected, linked ones agree, every selection is one of its element's
      options, every resolved connection choice has resolved prerequisites and a permitted number of connections,
      and a selection choice is resolved just if it has a selected option. */
  ghost predicate RulesHold(rules: Rules, bodies: Bodies) {
    && (forall e, a, b :: e in rules.incompatible && e.source != e.target ==>
          !BothSelected(bodies, e.source, a, e.target, b))
    && (forall e, a, b :: e in rules.constraints && e.constraintType == Some("Linked") ==>
          BothSelected(bodies, e.source, a, e.target, b) ==> a == b)
    && (forall id, o :: HasText(bodies, id, "selectedOption", o) ==> Offers(bodies, id, o))
    && (forall id :: Choice(rules, id, ConnectionChoice) && Settled(bodies, id) ==>
          PrerequisitesSettled(bodies, id) && Connected(bodies, id))
    && (forall id :: Choice(rules, id, SelectionChoice) ==>
          (Settled(bodies, id) <==> exists o :: HasText(bodies, id, "selectedOption", o)))
  }

  ghost predicate Connected(bodies: Bodies, id: Id) {
    exists items :: Has(bodies, id, "resolvedConnections", VArray(items)) && CountPermitted(bodies, id, |items|)
  }

  lemma ConnectedIs(bodies: Bodies, id: Id)
    ensures Counted(bodies, id) <==> Connected(bodies, id)
  {
    hide CountPermitted, CountAllowed;
    var properties := PropertiesOf(bodies, id);
    if "resolvedConnections" in properties && properties["resolvedConnections"].VArray? {
      var items := properties["resolvedConnections"].items;
      assert Has(bodies, id, "resolvedConnections", VArray(items));
      CardinalityPermits(bodies, id, |items|);
    }
  }

  lemma SelectionsAre(rules: Rules, bodies: Bodies)
    ensures NoConflict(rules, bodies) <==>
            forall e, a, b :: e in rules.incompatible && e.source != e.target ==>
              !BothSelected(bodies, e.source, a, e.target, b)
    ensures LinkedAgree(rules, bodies) <==>
            forall e, a, b :: e in rules.constraints && e.constraintType == Some("Linked") ==>
              BothSelected(bodies, e.source, a, e.target, b) ==> a == b
  {
    hide Selected, HasText;
    forall id, o
      ensures Selected(bodies, id) == Some(o) <==> HasText(bodies, id, "selectedOption", o)
    {
      SelectedIs(bodies, id);
    }
    forall e | e in rules.incompatible && Selected(bodies, e.source).Some? && Selected(bodies, e.target).Some?
      ensures BothSelected(bodies, e.source, Selected(bodies, e.source).value, e.target,
                           Selected(bodies, e.target).value)
    {
    }
    forall e | e in rules.constraints && Selected(bodies, e.source).Some? && Selected(bodies, e.target).Some?
      ensures BothSelected(bodies, e.source, Selected(bodies, e.source).value, e.target,
                           Selected(bodies, e.target).value)
    {
    }
  }

  /** The rules as the checks see them are the rules as stored. */
  lemma ConsistentMeans(rules: Rules, bodies: Bodies)
    ensures Consistent(rules, bodies) <==> RulesHold(rules, bodies)
  {
    hide NoConflict, LinkedAgree, HasText, Selected, IsResolved, Settled, Offers, OptionsOf, Prepared, Counted,
         PrerequisitesSettled, Connected, FirstUnready;
    SelectionsAre(rules, bodies);
    forall id
      ensures forall o :: Selected(bodies, id) == Some(o) <==> HasText(bodies, id, "selectedOption", o)
      ensures Selected(bodies, id).Some? <==> exists o :: HasText(bodies, id, "selectedOption", o)
      ensures IsResolved(bodies, id) <==> Settled(bodies, id)
      ensures Prepared(bodies, id) <==> PrerequisitesSettled(bodies, id)
      ensures Counted(bodies, id) <==> Connected(bodies, id)
    {
      SelectedIs(bodies, id);
      SettledIs(bodies, id);
      PreparedIs(bodies, id);
      ConnectedIs(bodies, id);
    }
    forall id, o
      ensures o in OptionsOf(PropertiesOf(bodies, id)) <==> Offers(bodies, id, o)
    {
      OffersIs(bodies, id, o);
    }
  }

  lemma PreparedIs(bodies: Bodies, id: Id)
    ensures Prepared(bodies, id) <==> PrerequisitesSettled(bodies, id)
  {
    hide FirstUnready, PrerequisitesSettled;
    PrerequisitesAre(bodies, id);
  }

  /** Every request keeps the rules, and leaves resolved what was resolved. */
  lemma StepKeepsRules(rules: Rules, bodies: Bodies, r: Request)
    requires RulesHold(rules, bodies)
    ensures RulesHold(rules, Next(rules, bodies, r))
    ensures forall x :: Settled(bodies, x) ==> Settled(Next(rules, bodies, r), x)
  {
    hide RulesHold, Consistent, Next, Settled, IsResolved;
    ConsistentMeans(rules, bodies);
    StepKeepsConsistent(rules, bodies, r);
    ConsistentMeans(rules, Next(rules, bodies, r));
    forall x
      ensures Settled(bodies, x) ==> Settled(Next(rules, bodies, r), x)
    {
      SettledIs(bodies, x);
      SettledIs(Next(rules, bodies, r), x);
    }
  }

  /** From a project in which nothing is selected or resolved, every run keeps every rule. */
  lemma EveryRunKeepsRules(rules: Rules, start: Bodies, requests: seq<Request>)
    requires forall id, o :: !HasText(start, id, "selectedOption", o) && !Settled(start, id)
    ensures RulesHold(rules, Run(rules, start, requests))
  {
    hide RulesHold, Consistent, Run, HasText, Settled, IsResolved, Selected;
    forall id
      ensures Selected(start, id).None? && !IsResolved(start, id)
    {
      SelectedIs(start, id);
      SettledIs(start, id);
      assert !HasText(start, id, "selectedOption", "") && !Settled(start, id);
    }
    EveryRunIsConsistent(rules, start, requests, |requests|, []);
    ConsistentMeans(rules, Run(rules, start, requests));
  }

  // ----- Status -----

  function SettledPlaces(bodies: Bodies, ids: seq<Id>): set<nat> {
    set i: nat | i < |ids| && Settled(bodies, ids[i])
  }

  lemma OnePlaceMore(bodies: Bodies, ids: seq<Id>, id: Id)
    ensures SettledPlaces(bodies, ids + [id]) ==
            SettledPlaces(bodies, ids) + if Settled(bodies, id) then {|ids|} else {}
    ensures |ids| !in SettledPlaces(bodies, ids)
  {
    hide Settled;
  }

  lemma NoPlaces(bodies: Bodies)
    ensures SettledPlaces(bodies, []) == {}
  {
  }

  /** The count of a subsystem's status is of the places whose element is resolved. */
  lemma {:induction false} ResolvedCountIs(bodies: Bodies, ids: seq<Id>)
    ensures ResolvedCount(bodies, ids) == |SettledPlaces(bodies, ids)|
    decreases |ids|
  {
    hide Settled, IsResolved, SettledPlaces;
    if ids == [] {
      NoPlaces(bodies);
    } else {
      var init, last := ids[..|ids| - 1], ids[|ids| - 1];
      ResolvedCountIs(bodies, init);
      SettledIs(bodies, last);
      OnePlaceMore(bodies, init, last);
      assert ids == init + [last];
    }
  }
}
