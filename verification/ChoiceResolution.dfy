/** Resolving architecture choices one by one, under incompatibilities, links, prerequisites and
    cardinalities. */
module ChoiceResolution {
  import opened SysmlModel

  /** A JSON value, as far as this component looks into one. */
  datatype Value =
    | VString(s: string) | VNat(n: nat) | VArray(items: seq<Value>) | VObject(fields: map<string, Value>) | VOther

  type Properties = map<string, Value>

  datatype Pair = Pair(source: string, target: string)

  datatype LinkEdge = LinkEdge(source: Id, target: Id, constraintType: Option<string>)

  /** What stays fixed while choices are resolved. */
  datatype Rules = Rules(kinds: map<Id, NodeKind>, incompatible: seq<Edge>, constraints: seq<LinkEdge>)

  /** An element without a body has none of its properties. */
  type Bodies = map<Id, Properties>

  datatype Refusal =
    | NoSuchElement | NotAChoice | OptionRequired | NotAnOption
    | ConflictsWith(other: Id) | DisagreesWith(other: Id) | WaitsFor(prerequisite: Id) | WrongCount

  datatype Request = Request(id: Id, selectedOption: Option<string>, connections: seq<Pair>)

  datatype Outcome<+T> = Done(value: T) | Refused(reason: Refusal)

  // ----- Reading properties -----

  function PropertiesOf(bodies: Bodies, id: Id): Properties {
    if id in bodies then bodies[id] else map[]
  }

  function TextAt(properties: Properties, key: string): Option<string> {
    if key in properties && properties[key].VString? then Some(properties[key].s) else None
  }

  function Selected(bodies: Bodies, id: Id): Option<string> {
    TextAt(PropertiesOf(bodies, id), "selectedOption")
  }

  function StateOf(properties: Properties): string {
    var s := TextAt(properties, "resolutionState");
    if s.Some? then s.value else "unresolved"
  }

  predicate IsResolved(bodies: Bodies, id: Id) {
    StateOf(PropertiesOf(bodies, id)) == "resolved"
  }

  function Strings(items: seq<Value>): seq<string> {
    if items == [] then []
    else
      var last := items[|items| - 1];
      Strings(items[..|items| - 1]) + if last.VString? then [last.s] else []
  }

  function OptionsOf(properties: Properties): seq<string> {
    if "options" in properties && properties["options"].VArray? then Strings(properties["options"].items) else []
  }

  function FieldOf(v: Value, key: string): Option<Value> {
    if v.VObject? && key in v.fields then Some(v.fields[key]) else None
  }

  function NatField(v: Value, key: string): Option<nat> {
    match FieldOf(v, key)
    case Some(VNat(n)) => Some(n)
    case _ => None
  }

  function Nats(items: seq<Value>): seq<nat> {
    if items == [] then []
    else
      var last := items[|items| - 1];
      Nats(items[..|items| - 1]) + if last.VNat? then [last.n] else []
  }

  /** Whether a number of connections is one a cardinality allows; an unreadable one allows any. */
  predicate CountAllowed(cardinality: Value, count: nat) {
    match FieldOf(cardinality, "type")
    case Some(VString(t)) =>
      if t == "range" then
        var min, max := NatField(cardinality, "min"), NatField(cardinality, "max");
        (min.Some? ==> min.value <= count) && (max.Some? ==> count <= max.value)
      else if t == "list" then
        var allowed := match FieldOf(cardinality, "allowed") case Some(VArray(items)) => Nats(items) case _ => [];
        allowed == [] || count in allowed
      else true
    case _ => true
  }

  function CardinalityOf(properties: Properties): Value {
    if "cardinality" in properties then properties["cardinality"] else VOther
  }

  // ----- Checking -----

  function Other(source: Id, target: Id, id: Id): Id {
    if source == id then target else source
  }

  /** The first edge, if any, that links the element to one that carries a selected option. */
  function FirstConflict(edges: seq<Edge>, bodies: Bodies, id: Id): Option<Id> {
    if edges == [] then None
    else
      var e := edges[0];
      var other := Other(e.source, e.target, id);
      if (e.source == id || e.target == id) && Selected(bodies, other).Some? then Some(other)
      else FirstConflict(edges[1..], bodies, id)
  }

  function FirstDisagreement(edges: seq<LinkEdge>, bodies: Bodies, id: Id, selected: string): Option<Id> {
    if edges == [] then None
    else
      var e := edges[0];
      var other := Other(e.source, e.target, id);
      if (e.source == id || e.target == id) && e.constraintType == Some("Linked")
         && Selected(bodies, other).Some? && Selected(bodies, other) != Some(selected)
      then Some(other)
      else FirstDisagreement(edges[1..], bodies, id, selected)
  }

  function CheckSelection(rules: Rules, bodies: Bodies, id: Id, selected: string): Option<Refusal> {
    var conflict := FirstConflict(rules.incompatible, bodies, id);
    if conflict.Some? then Some(ConflictsWith(conflict.value))
    else
      var disagreement := FirstDisagreement(rules.constraints, bodies, id, selected);
      if disagreement.Some? then Some(DisagreesWith(disagreement.value)) else None
  }

  /** The first prerequisite that is not resolved. */
  function FirstUnready(properties: Properties, bodies: Bodies): Option<Id> {
    var source, target := TextAt(properties, "sourceSelectionChoiceId"), TextAt(properties, "targetSelectionChoiceId");
    if source.Some? && !IsResolved(bodies, source.value) then source
    else if target.Some? && !IsResolved(bodies, target.value) then target
    else None
  }

  function PairValue(p: Pair): Value {
    VObject(map["source" := VString(p.source), "target" := VString(p.target)])
  }

  function PairValues(connections: seq<Pair>): Value {
    VArray(seq(|connections|, i requires 0 <= i < |connections| => PairValue(connections[i])))
  }

  /** The property a request sets besides the state, with its value, if the request is allowed. */
  function Answer(rules: Rules, bodies: Bodies, r: Request): Outcome<(string, Value)> {
    if r.id !in rules.kinds then Refused(NoSuchElement)
    else
      var kind, properties := rules.kinds[r.id], PropertiesOf(bodies, r.id);
      if kind == SelectionChoice then
        if r.selectedOption.None? then Refused(OptionRequired)
        else if r.selectedOption.value !in OptionsOf(properties) then Refused(NotAnOption)
        else
          var refusal := CheckSelection(rules, bodies, r.id, r.selectedOption.value);
          if refusal.Some? then Refused(refusal.value) else Done(("selectedOption", VString(r.selectedOption.value)))
      else if kind == ConnectionChoice then
        var unready := FirstUnready(properties, bodies);
        if unready.Some? then Refused(WaitsFor(unready.value))
        else if !CountAllowed(CardinalityOf(properties), |r.connections|) then Refused(WrongCount)
        else Done(("resolvedConnections", PairValues(r.connections)))
      else Refused(NotAChoice)
  }

  function Resolved(properties: Properties, answer: (string, Value)): Properties {
    properties[answer.0 := answer.1]["resolutionState" := VString("resolved")]
  }

  function ResolveChoice(rules: Rules, bodies: Bodies, r: Request): Outcome<Bodies> {
    match Answer(rules, bodies, r)
    case Refused(reason) => Refused(reason)
    case Done(answer) => Done(bodies[r.id := Resolved(PropertiesOf(bodies, r.id), answer)])
  }

  // ----- The service as the program runs it -----

  class Resolver {
    const rules: Rules
    var bodies: Bodies

    constructor (rules: Rules, bodies: Bodies)
      ensures this.rules == rules && this.bodies == bodies
    {
      this.rules, this.bodies := rules, bodies;
    }

    method CheckConstraints(id: Id, selected: string) returns (refusal: Option<Refusal>)
      ensures refusal == CheckSelection(rules, bodies, id, selected)
    {
      for i := 0 to |rules.incompatible|
        invariant FirstConflict(rules.incompatible[i..], bodies, id) == FirstConflict(rules.incompatible, bodies, id)
      {
        var e := rules.incompatible[i];
        assert rules.incompatible[i..][0] == e && rules.incompatible[i..][1..] == rules.incompatible[i + 1..];
        if e.source == id || e.target == id {
          var other := if e.source == id then e.target else e.source;
          if Selected(bodies, other).Some? {
            return Some(ConflictsWith(other));
          }
        }
      }
      for i := 0 to |rules.constraints|
        invariant FirstDisagreement(rules.constraints[i..], bodies, id, selected) ==
                  FirstDisagreement(rules.constraints, bodies, id, selected)
      {
        var e := rules.constraints[i];
        assert rules.constraints[i..][0] == e && rules.constraints[i..][1..] == rules.constraints[i + 1..];
        if (e.source == id || e.target == id) && e.constraintType == Some("Linked") {
          var other := if e.source == id then e.target else e.source;
          var otherSelected := Selected(bodies, other);
          if otherSelected.Some? && otherSelected.value != selected {
            return Some(DisagreesWith(other));
          }
        }
      }
      return None;
    }

    method Resolve(r: Request) returns (refusal: Option<Refusal>)
      modifies this
      ensures match ResolveChoice(rules, old(bodies), r)
              case Refused(reason) => refusal == Some(reason) && bodies == old(bodies)
              case Done(after) => refusal == None && bodies == after
    {
      hide CheckSelection, CountAllowed, OptionsOf, TextAt, IsResolved;
      if r.id !in rules.kinds {
        return Some(NoSuchElement);
      }
      var kind := rules.kinds[r.id];
      if kind != SelectionChoice && kind != ConnectionChoice {
        return Some(NotAChoice);
      }
      var properties := PropertiesOf(bodies, r.id);
      if kind == SelectionChoice {
        var options := OptionsOf(properties);
        if r.selectedOption.None? {
          return Some(OptionRequired);
        }
        if r.selectedOption.value !in options {
          return Some(NotAnOption);
        }
        refusal := CheckConstraints(r.id, r.selectedOption.value);
        if refusal.Some? {
          return;
        }
        properties := properties["selectedOption" := VString(r.selectedOption.value)];
      } else {
        var keys := ["sourceSelectionChoiceId", "targetSelectionChoiceId"];
        var first := TextAt(properties, keys[0]);
        if first.Some? && !IsResolved(bodies, first.value) {
          return Some(WaitsFor(first.value));
        }
        var second := TextAt(properties, keys[1]);
        if second.Some? && !IsResolved(bodies, second.value) {
          return Some(WaitsFor(second.value));
        }
        if !CountAllowed(CardinalityOf(properties), |r.connections|) {
          return Some(WrongCount);
        }
        properties := properties["resolvedConnections" := PairValues(r.connections)];
      }
      properties := properties["resolutionState" := VString("resolved")];
      bodies := bodies[r.id := properties];
      return None;
    }
  }

  // ----- What every run keeps -----

  predicate Choice(rules: Rules, id: Id, kind: NodeKind) {
    id in rules.kinds && rules.kinds[id] == kind
  }

  ghost predicate NoConflict(rules: Rules, bodies: Bodies) {
    forall e :: e in rules.incompatible && e.source != e.target ==>
      Selected(bodies, e.source).None? || Selected(bodies, e.target).None?
  }

  ghost predicate LinkedAgree(rules: Rules, bodies: Bodies) {
    forall e :: e in rules.constraints && e.constraintType == Some("Linked") ==>
      Selected(bodies, e.source).None? || Selected(bodies, e.target).None? ||
        Selected(bodies, e.source) == Selected(bodies, e.target)
  }

  ghost predicate Prepared(bodies: Bodies, id: Id) {
    FirstUnready(PropertiesOf(bodies, id), bodies) == None
  }

  ghost predicate Counted(bodies: Bodies, id: Id) {
    var properties := PropertiesOf(bodies, id);
    && "resolvedConnections" in properties && properties["resolvedConnections"].VArray?
    && CountAllowed(CardinalityOf(properties), |properties["resolvedConnections"].items|)
  }

  ghost predicate ConnectionsReady(rules: Rules, bodies: Bodies) {
    forall id :: Choice(rules, id, ConnectionChoice) && IsResolved(bodies, id) ==>
      Prepared(bodies, id) && Counted(bodies, id)
  }

  /** No two incompatible elements are both selected, linked ones agree, every selection is one of its
      options, and every resolved connection choice had its prerequisites and an allowed count. */
  ghost predicate Consistent(rules: Rules, bodies: Bodies) {
    && NoConflict(rules, bodies) && LinkedAgree(rules, bodies)
    && (forall id :: Selected(bodies, id).Some? ==> Selected(bodies, id).value in OptionsOf(PropertiesOf(bodies, id)))
    && ConnectionsReady(rules, bodies)
    && (forall id :: Choice(rules, id, SelectionChoice) ==> (IsResolved(bodies, id) <==> Selected(bodies, id).Some?))
  }

  /** Nothing has been selected or resolved. */
  predicate Untouched(bodies: Bodies) {
    forall id :: id in bodies ==> Selected(bodies, id).None? && !IsResolved(bodies, id)
  }

  lemma UntouchedIsConsistent(rules: Rules, bodies: Bodies)
    requires Untouched(bodies)
    ensures Consistent(rules, bodies)
  {
    forall id
      ensures Selected(bodies, id).None? && !IsResolved(bodies, id)
    {
    }
  }

  lemma {:induction false} NoConflictMeans(edges: seq<Edge>, bodies: Bodies, id: Id)
    requires FirstConflict(edges, bodies, id).None?
    ensures forall e :: e in edges && (e.source == id || e.target == id) ==>
            Selected(bodies, Other(e.source, e.target, id)).None?
    decreases |edges|
  {
    hide Selected;
    if edges != [] {
      NoConflictMeans(edges[1..], bodies, id);
    }
  }

  lemma {:induction false} NoDisagreementMeans(edges: seq<LinkEdge>, bodies: Bodies, id: Id, selected: string)
    requires FirstDisagreement(edges, bodies, id, selected).None?
    ensures forall e :: e in edges && (e.source == id || e.target == id) && e.constraintType == Some("Linked") ==>
      var o := Selected(bodies, Other(e.source, e.target, id)); o.None? || o == Some(selected)
    decreases |edges|
  {
    hide Selected;
    if edges != [] {
      NoDisagreementMeans(edges[1..], bodies, id, selected);
    }
  }

  /** What a resolution does to what is read of the bodies. */
  lemma ResolvedReads(bodies: Bodies, id: Id, answer: (string, Value))
    requires answer.0 == "selectedOption" || answer.0 == "resolvedConnections"
    ensures var after := bodies[id := Resolved(PropertiesOf(bodies, id), answer)];
            && IsResolved(after, id)
            && (forall x :: x != id ==> PropertiesOf(after, x) == PropertiesOf(bodies, x))
            && (forall key :: key != answer.0 && key != "resolutionState" ==>
                TextAt(PropertiesOf(after, id), key) == TextAt(PropertiesOf(bodies, id), key))
            && OptionsOf(PropertiesOf(after, id)) == OptionsOf(PropertiesOf(bodies, id))
            && CardinalityOf(PropertiesOf(after, id)) == CardinalityOf(PropertiesOf(bodies, id))
            && (answer.0 in PropertiesOf(after, id) && PropertiesOf(after, id)[answer.0] == answer.1)
            && (answer.0 == "selectedOption" && answer.1.VString? ==> Selected(after, id) == Some(answer.1.s))
            && (answer.0 == "resolvedConnections" ==> Selected(after, id) == Selected(bodies, id))
  {
  }

  /** A resolution leaves every resolved element resolved. */
  lemma ResolvedStays(bodies: Bodies, id: Id, answer: (string, Value))
    requires answer.0 == "selectedOption" || answer.0 == "resolvedConnections"
    ensures var after := bodies[id := Resolved(PropertiesOf(bodies, id), answer)];
            forall x :: IsResolved(bodies, x) || x == id <==> IsResolved(after, x)
  {
    hide IsResolved;
    ResolvedReads(bodies, id, answer);
    var after := bodies[id := Resolved(PropertiesOf(bodies, id), answer)];
    forall x
      ensures IsResolved(bodies, x) || x == id <==> IsResolved(after, x)
    {
      if x != id {
        SameState(bodies, after, x);
      }
    }
  }

  lemma SameState(bodies: Bodies, after: Bodies, x: Id)
    requires PropertiesOf(after, x) == PropertiesOf(bodies, x)
    ensures IsResolved(after, x) == IsResolved(bodies, x) && Selected(after, x) == Selected(bodies, x)
  {
  }

  lemma SelectionKeepsRules(rules: Rules, bodies: Bodies, id: Id, selected: string, after: Bodies)
    requires NoConflict(rules, bodies) && LinkedAgree(rules, bodies) &&
             CheckSelection(rules, bodies, id, selected).None?
    requires Selected(after, id) == Some(selected) && forall x :: x != id ==> Selected(after, x) == Selected(bodies, x)
    ensures NoConflict(rules, after) && LinkedAgree(rules, after)
  {
    hide Selected;
    NoConflictMeans(rules.incompatible, bodies, id);
    NoDisagreementMeans(rules.constraints, bodies, id, selected);
    forall e | e in rules.incompatible && e.source != e.target
      ensures Selected(after, e.source).None? || Selected(after, e.target).None?
    {
      if e.source == id || e.target == id {
        assert Selected(bodies, Other(e.source, e.target, id)).None?;
      }
    }
    forall e | e in rules.constraints && e.constraintType == Some("Linked")
      ensures Selected(after, e.source).None? || Selected(after, e.target).None? ||
              Selected(after, e.source) == Selected(after, e.target)
    {
      if e.source == id || e.target == id {
        var other := Other(e.source, e.target, id);
        assert Selected(bodies, other).None? || Selected(bodies, other) == Some(selected);
      }
    }
  }

  lemma RulesFromSelections(rules: Rules, bodies: Bodies, after: Bodies)
    requires NoConflict(rules, bodies) && LinkedAgree(rules, bodies) &&
             forall x :: Selected(after, x) == Selected(bodies, x)
    ensures NoConflict(rules, after) && LinkedAgree(rules, after)
  {
    hide Selected;
  }

  /** A prepared choice stays prepared when more gets resolved. */
  lemma StaysPrepared(bodies: Bodies, after: Bodies, id: Id)
    requires Prepared(bodies, id) && forall x :: IsResolved(bodies, x) ==> IsResolved(after, x)
    requires TextAt(PropertiesOf(after, id), "sourceSelectionChoiceId") ==
             TextAt(PropertiesOf(bodies, id), "sourceSelectionChoiceId")
    requires TextAt(PropertiesOf(after, id), "targetSelectionChoiceId") ==
             TextAt(PropertiesOf(bodies, id), "targetSelectionChoiceId")
    ensures Prepared(after, id)
  {
    hide IsResolved, TextAt;
  }

  lemma AnswerKey(rules: Rules, bodies: Bodies, r: Request)
    requires Answer(rules, bodies, r).Done?
    ensures var answer := Answer(rules, bodies, r).value;
            if Choice(rules, r.id, SelectionChoice) then
              && r.selectedOption.Some? && answer == ("selectedOption", VString(r.selectedOption.value))
              && r.selectedOption.value in OptionsOf(PropertiesOf(bodies, r.id))
              && CheckSelection(rules, bodies, r.id, r.selectedOption.value).None?
            else
              && Choice(rules, r.id, ConnectionChoice) && answer == ("resolvedConnections", PairValues(r.connections))
              && Prepared(bodies, r.id)
              && CountAllowed(CardinalityOf(PropertiesOf(bodies, r.id)), |r.connections|)
  {
    hide CheckSelection, CountAllowed, OptionsOf, TextAt, IsResolved, FirstUnready;
  }

  lemma StepKeepsSelections(rules: Rules, bodies: Bodies, r: Request, after: Bodies)
    requires Consistent(rules, bodies) && ResolveChoice(rules, bodies, r) == Done(after)
    ensures NoConflict(rules, after) && LinkedAgree(rules, after)
    ensures forall id :: Selected(after, id).Some? ==> Selected(after, id).value in OptionsOf(PropertiesOf(after, id))
    ensures forall id :: Choice(rules, id, SelectionChoice) ==> (IsResolved(after, id) <==> Selected(after, id).Some?)
  {
    hide NoConflict, LinkedAgree, Selected, OptionsOf, IsResolved, Answer, CheckSelection, ConnectionsReady, Prepared,
         PairValues, Resolved;
    AnswerKey(rules, bodies, r);
    var answer := Answer(rules, bodies, r).value;
    ResolvedReads(bodies, r.id, answer);
    ResolvedStays(bodies, r.id, answer);
    forall x | x != r.id
      ensures Selected(after, x) == Selected(bodies, x)
    {
      SameState(bodies, after, x);
    }
    if Choice(rules, r.id, SelectionChoice) {
      SelectionKeepsRules(rules, bodies, r.id, r.selectedOption.value, after);
    } else {
      RulesFromSelections(rules, bodies, after);
    }
  }

  lemma StepKeepsConnections(rules: Rules, bodies: Bodies, r: Request, after: Bodies)
    requires ConnectionsReady(rules, bodies) && ResolveChoice(rules, bodies, r) == Done(after)
    ensures ConnectionsReady(rules, after)
  {
    hide Selected, OptionsOf, IsResolved, Answer, CheckSelection, Prepared, Counted, CountAllowed, PairValues,
         Resolved, TextAt;
    AnswerKey(rules, bodies, r);
    var answer := Answer(rules, bodies, r).value;
    ResolvedStays(bodies, r.id, answer);
    forall id | Choice(rules, id, ConnectionChoice) && IsResolved(after, id)
      ensures Prepared(after, id) && Counted(after, id)
    {
      if id == r.id {
        AnsweredIsReady(bodies, r, answer, after);
      } else {
        StaysPrepared(bodies, after, id);
        SameCount(bodies, after, id);
      }
    }
  }

  lemma AnsweredIsReady(bodies: Bodies, r: Request, answer: (string, Value), after: Bodies)
    requires answer == ("resolvedConnections", PairValues(r.connections)) && Prepared(bodies, r.id)
    requires after == bodies[r.id := Resolved(PropertiesOf(bodies, r.id), answer)]
    requires CountAllowed(CardinalityOf(PropertiesOf(bodies, r.id)), |r.connections|)
    ensures Prepared(after, r.id) && Counted(after, r.id)
  {
    hide OptionsOf, IsResolved, Prepared, Counted, CountAllowed, PairValues, Resolved, TextAt, CardinalityOf;
    ResolvedReads(bodies, r.id, answer);
    ResolvedStays(bodies, r.id, answer);
    StaysPrepared(bodies, after, r.id);
    PairsAreCounted(after, r.id, r.connections);
  }

  lemma SameCount(bodies: Bodies, after: Bodies, id: Id)
    requires PropertiesOf(after, id) == PropertiesOf(bodies, id)
    ensures Counted(after, id) == Counted(bodies, id)
  {
    hide CountAllowed;
  }

  lemma PairsAreCounted(after: Bodies, id: Id, connections: seq<Pair>)
    requires "resolvedConnections" in PropertiesOf(after, id) &&
             PropertiesOf(after, id)["resolvedConnections"] == PairValues(connections)
    requires CountAllowed(CardinalityOf(PropertiesOf(after, id)), |connections|)
    ensures Counted(after, id)
  {
    hide CountAllowed;
  }

  /** Every request keeps the rules, and leaves resolved what was resolved. */
  lemma StepKeepsConsistent(rules: Rules, bodies: Bodies, r: Request)
    requires Consistent(rules, bodies)
    ensures Consistent(rules, Next(rules, bodies, r))
    ensures forall x :: IsResolved(bodies, x) ==> IsResolved(Next(rules, bodies, r), x)
  {
    hide NoConflict, LinkedAgree, Selected, OptionsOf, IsResolved, Answer, ConnectionsReady, Resolved;
    if ResolveChoice(rules, bodies, r).Done? {
      AnswerKey(rules, bodies, r);
      ResolvedStays(bodies, r.id, Answer(rules, bodies, r).value);
      StepKeepsSelections(rules, bodies, r, Next(rules, bodies, r));
      StepKeepsConnections(rules, bodies, r, Next(rules, bodies, r));
    }
  }

  function Next(rules: Rules, bodies: Bodies, r: Request): Bodies {
    var outcome := ResolveChoice(rules, bodies, r);
    if outcome.Done? then outcome.value else bodies
  }

  function Run(rules: Rules, bodies: Bodies, requests: seq<Request>): Bodies {
    if requests == [] then bodies
      else Next(rules, Run(rules, bodies, requests[..|requests| - 1]), requests[|requests| - 1])
  }

  // ----- The status of a subsystem -----

  function ResolvedCount(bodies: Bodies, ids: seq<Id>): (n: nat)
    ensures n <= |ids|
  {
    if ids == [] then 0
    else ResolvedCount(bodies, ids[..|ids| - 1]) + if IsResolved(bodies, ids[|ids| - 1]) then 1 else 0
  }

  datatype Status = Unresolved | Partial | AllResolved

  function StatusOf(resolved: nat, total: nat): Status {
    if total == 0 || resolved == 0 then Unresolved else if resolved == total then AllResolved else Partial
  }

  function Progress(s: Status): nat {
    match s case Unresolved => 0 case Partial => 1 case AllResolved => 2
  }

  lemma {:induction false} CountNeverFalls(bodies: Bodies, after: Bodies, ids: seq<Id>)
    requires forall x :: IsResolved(bodies, x) ==> IsResolved(after, x)
    ensures ResolvedCount(bodies, ids) <= ResolvedCount(after, ids)
  {
    hide IsResolved;
    if ids != [] {
      CountNeverFalls(bodies, after, ids[..|ids| - 1]);
    }
  }

  /** From an untouched project on, every run keeps every rule, and a subsystem's status never goes back. */
  lemma {:induction false} EveryRunIsConsistent(rules: Rules, start: Bodies, requests: seq<Request>, k: nat,
                                                ids: seq<Id>)
    requires Untouched(start) && k <= |requests|
    ensures Consistent(rules, Run(rules, start, requests))
    ensures var earlier, now := ResolvedCount(Run(rules, start, requests[..k]), ids),
            ResolvedCount(Run(rules, start, requests), ids);
            earlier <= now && Progress(StatusOf(earlier, |ids|)) <= Progress(StatusOf(now, |ids|))
    decreases |requests|
  {
    hide Consistent, Next, IsResolved;
    if requests == [] {
      UntouchedIsConsistent(rules, start);
      assert requests[..k] == requests;
    } else {
      var init := requests[..|requests| - 1];
      if k == |requests| {
        EveryRunIsConsistent(rules, start, init, |init|, ids);
        assert requests[..k] == requests;
      } else {
        EveryRunIsConsistent(rules, start, init, k, ids);
        assert requests[..k] == init[..k];
      }
      var before := Run(rules, start, init);
      StepKeepsConsistent(rules, before, requests[|requests| - 1]);
      CountNeverFalls(before, Run(rules, start, requests), ids);
    }
  }

  // ----- What is recorded of a resolution -----

  /** The one change a resolution is committed with. */
  function Recorded(bodies: Bodies, id: Id): Bodies {
    bodies[id := PropertiesOf(bodies, id)["resolutionState" := VString("resolved")]]
  }

  /** Setting an answer beside the state makes no difference exactly when the answer is there. */
  lemma AnswerIsThereIff(properties: Properties, answer: (string, Value))
    requires answer.0 != "resolutionState"
    ensures Resolved(properties, answer) == properties["resolutionState" := VString("resolved")] <==>
            answer.0 in properties && properties[answer.0] == answer.1
  {
    var now, recorded := Resolved(properties, answer), properties["resolutionState" := VString("resolved")];
    assert now[answer.0] == answer.1;
    if answer.0 in properties && properties[answer.0] == answer.1 {
      assert now == recorded;
    }
  }

  lemma AnswerIsNotState()
    ensures "selectedOption" != "resolutionState" && "resolvedConnections" != "resolutionState"
  {
    assert |"selectedOption"| == 14 && |"resolutionState"| == 15 && |"resolvedConnections"| == 19;
  }

  lemma SameBodyIff(bodies: Bodies, id: Id, a: Properties, b: Properties)
    ensures bodies[id := a] == bodies[id := b] <==> a == b
  {
    assert bodies[id := a][id] == a && bodies[id := b][id] == b;
  }

  /** Replaying the recorded change gives what the resolution left in the store exactly when the answer was
      already there: the selected option or the connections themselves are not recorded. */
  lemma RecordIsExactIff(rules: Rules, bodies: Bodies, r: Request)
    requires ResolveChoice(rules, bodies, r).Done?
    ensures var answer := Answer(rules, bodies, r).value;
            ResolveChoice(rules, bodies, r).value == Recorded(bodies, r.id) <==>
            answer.0 in PropertiesOf(bodies, r.id) && PropertiesOf(bodies, r.id)[answer.0] == answer.1
  {
    hide Answer, Resolved, CheckSelection, CountAllowed, OptionsOf, Prepared, Choice;
    AnswerKey(rules, bodies, r);
    AnswerIsNotState();
    var answer, properties := Answer(rules, bodies, r).value, PropertiesOf(bodies, r.id);
    AnswerIsThereIff(properties, answer);
    SameBodyIff(bodies, r.id, Resolved(properties, answer), properties["resolutionState" := VString("resolved")]);
  }

  /** The first selection of an untouched project is never recorded as it was made. */
  lemma FirstSelectionIsLost(rules: Rules, bodies: Bodies, r: Request)
    requires Untouched(bodies) && Choice(rules, r.id, SelectionChoice) && ResolveChoice(rules, bodies, r).Done?
    ensures ResolveChoice(rules, bodies, r).value != Recorded(bodies, r.id)
  {
    hide Answer;
    AnswerKey(rules, bodies, r);
    RecordIsExactIff(rules, bodies, r);
    assert Selected(bodies, r.id).None?;
  }

  /** There is such a selection. */
  lemma SomeSelectionIsLost()
    ensures var rules := Rules(map["c" := SelectionChoice], [], []);
            var bodies := map["c" := map["options" := VArray([VString("x")])]];
            var r := Request("c", Some("x"), []);
            && Untouched(bodies) && ResolveChoice(rules, bodies, r).Done?
            && ResolveChoice(rules, bodies, r).value != Recorded(bodies, "c")
  {
    var rules := Rules(map["c" := SelectionChoice], [], []);
    var bodies := map["c" := map["options" := VArray([VString("x")])]];
    var r := Request("c", Some("x"), []);
    assert [VString("x")][..0] == [];
    assert OptionsOf(bodies["c"]) == ["x"];
    assert Answer(rules, bodies, r).Done?;
    FirstSelectionIsLost(rules, bodies, r);
  }
}
